/**
 * What a health report says about the stored evidence, and what reconciliation makes of it: src/registry.cpp:1620-1800.
 */
module ReportMeaning {
  import opened Bytes
  import opened Ordering
  import A = Authority
  import opened Consensus
  import opened Capability
  import opened Lifecycle
  import opened Latch
  import opened Health
  import opened HealthReport
  import opened HealthMeaning
  import opened RegistryState
  import opened Mutations
  import opened RegistryInvariant

  // ----- The stored samples behind a row -----

  /** A stored sample of the series that counts: the module's own, of its incarnation and of a live source epoch. */
  predicate Admitted(e: Evidence, metric: Metric, lane: U16, s: HealthSample) {
    && s in e.samples && s.metric == metric && s.lane == lane && s.moduleUid == e.uid && s.incarnation == e.incarnation
    && s.source in e.epochs && e.epochs[s.source] == s.epoch
  }

  /** ... and the latest its source has given. */
  ghost predicate Voice(e: Evidence, metric: Metric, lane: U16, s: HealthSample) {
    && Admitted(e, metric, lane, s)
    && forall o :: Admitted(e, metric, lane, o) && o.source == s.source ==> NotLater(o, s)
  }

  ghost predicate UsableVoice(e: Evidence, metric: Metric, lane: U16, t: Threshold, s: HealthSample) {
    Voice(e, metric, lane, s) && Usable(s, t, e.now, e.skewNs)
  }

  ghost predicate VoicesDisagree(e: Evidence, metric: Metric, lane: U16, t: Threshold) {
    exists a, b :: UsableVoice(e, metric, lane, t, a) && UsableVoice(e, metric, lane, t, b) && a.source != b.source
                   && a.value - b.value > t.disagreementTolerance
  }

  // ----- The series of a row -----

  lemma {:induction false} SeriesExactly(e: Evidence, samples: seq<HealthSample>, code: nat)
    requires InSequence(samples)
    ensures InSequence(Series(e, samples, code))
    ensures forall x :: x in Series(e, samples, code) <==>
                        exists s :: s in samples && SampleSeries(s) == code && x == Marked(e, s)
  {
    hide SampleSeries;
    if samples != [] {
      var front, y := samples[..|samples| - 1], samples[|samples| - 1];
      assert samples == front + [y];
      FrontInSequence(front, y);
      SeriesExactly(e, front, code);
      var before := Series(e, front, code);
      forall i | 0 <= i < |before| ensures before[i].sequence < y.sequence {
        assert before[i] in before;
        var s :| s in front && SampleSeries(s) == code && before[i] == Marked(e, s);
        LastIsLatest(front, y, s);
      }
      assert Series(e, samples, code) == if SampleSeries(y) == code then before + [Marked(e, y)] else before;
    }
  }

  lemma SeriesSize(e: Evidence, samples: seq<HealthSample>, code: nat)
    ensures |Series(e, samples, code)| == |Filter(samples, (s: HealthSample) => SampleSeries(s) == code)|
  {
    hide SampleSeries;
  }

  lemma MarkedCounts(e: Evidence, s: HealthSample)
    ensures Counts(Marked(e, s), e.uid, e.incarnation) <==>
            s.moduleUid == e.uid && s.incarnation == e.incarnation && s.source in e.epochs
              && e.epochs[s.source] == s.epoch
  {
  }

  lemma SameMark(e: Evidence, a: HealthSample, b: HealthSample)
    requires InSequence(e.samples) && a in e.samples && b in e.samples && Marked(e, a) == Marked(e, b)
    ensures a == b
  {
    var i :| 0 <= i < |e.samples| && e.samples[i] == a;
    var j :| 0 <= j < |e.samples| && e.samples[j] == b;
  }

  /** What speaks in the series of a row are the stored voices of that metric and lane. */
  lemma VoicesSpeak(e: Evidence, metric: Metric, lane: U16, s: HealthSample)
    requires InSequence(e.samples) && s in e.samples && s.metric == metric && s.lane == lane
    ensures Speaks(Series(e, e.samples, SeriesCode(metric, lane)), e.uid, e.incarnation, Marked(e, s)) <==>
            Voice(e, metric, lane, s)
  {
    hide InSequence, Marked, Series, SampleSeries, SeriesCode, Counts;
    var code := SeriesCode(metric, lane);
    var series := Series(e, e.samples, code);
    SeriesExactly(e, e.samples, code);
    SampleCarries(s, metric, lane);
    MarkedCounts(e, s);
    MarkKeeps(e, s);
    if Voice(e, metric, lane, s) {
      forall x | x in series && Counts(x, e.uid, e.incarnation) && x.source == s.source ensures NotLater(x, s) {
        var o :| o in e.samples && SampleSeries(o) == code && x == Marked(e, o);
        SampleCarries(o, metric, lane);
        MarkedCounts(e, o);
        MarkKeeps(e, o);
        assert Admitted(e, metric, lane, o);
      }
    }
    if Speaks(series, e.uid, e.incarnation, Marked(e, s)) {
      forall o | Admitted(e, metric, lane, o) && o.source == s.source ensures NotLater(o, s) {
        SampleCarries(o, metric, lane);
        MarkedCounts(e, o);
        MarkKeeps(e, o);
        assert Marked(e, o) in series;
      }
    }
  }

  lemma MarkKeeps(e: Evidence, s: HealthSample)
    ensures var x := Marked(e, s); x == s.(live := x.live)
  {
  }

  /** ... and nothing else speaks there. */
  lemma OnlyVoicesSpeak(e: Evidence, metric: Metric, lane: U16, x: HealthSample) returns (s: HealthSample)
    requires InSequence(e.samples) && Speaks(Series(e, e.samples, SeriesCode(metric, lane)), e.uid, e.incarnation, x)
    ensures x == Marked(e, s) && Voice(e, metric, lane, s)
  {
    hide InSequence, Marked, Series, SampleSeries, SeriesCode;
    var code := SeriesCode(metric, lane);
    SeriesExactly(e, e.samples, code);
    s :| s in e.samples && SampleSeries(s) == code && x == Marked(e, s);
    SampleCarries(s, metric, lane);
    VoicesSpeak(e, metric, lane, s);
  }

  ghost predicate AnyVoice(e: Evidence, metric: Metric, lane: U16) { exists s :: Voice(e, metric, lane, s) }

  ghost predicate AnyUsable(e: Evidence, metric: Metric, lane: U16, t: Threshold) {
    exists s :: UsableVoice(e, metric, lane, t, s)
  }

  ghost predicate AnyMeasured(e: Evidence, metric: Metric, lane: U16) {
    exists s :: Voice(e, metric, lane, s) && s.presence == Present
  }

  /** A stored sample of the series that does not count. */
  predicate Excluded(e: Evidence, metric: Metric, lane: U16, s: HealthSample) {
    s in e.samples && s.metric == metric && s.lane == lane && s.moduleUid == e.uid && !Admitted(e, metric, lane, s)
  }

  ghost predicate AnyFenced(e: Evidence, metric: Metric, lane: U16) { exists s :: Excluded(e, metric, lane, s) }

  lemma VoicesOfSeries(e: Evidence, metric: Metric, lane: U16)
    requires InSequence(e.samples)
    ensures var series := Series(e, e.samples, SeriesCode(metric, lane));
      && ((exists x :: Speaks(series, e.uid, e.incarnation, x)) <==> AnyVoice(e, metric, lane))
      && (AgedOnly(series, e.uid, e.incarnation) <==> AnyMeasured(e, metric, lane))
  {
    hide InSequence, Marked, Series, SeriesCode, Speaks;
    var series := Series(e, e.samples, SeriesCode(metric, lane));
    if x :| Speaks(series, e.uid, e.incarnation, x) {
      var s := OnlyVoicesSpeak(e, metric, lane, x);
    }
    if s :| Voice(e, metric, lane, s) {
      VoicesSpeak(e, metric, lane, s);
    }
    if x :| Speaks(series, e.uid, e.incarnation, x) && x.presence == Present {
      var s := OnlyVoicesSpeak(e, metric, lane, x);
      MarkKeeps(e, s);
    }
    if s :| Voice(e, metric, lane, s) && s.presence == Present {
      VoicesSpeak(e, metric, lane, s);
      MarkKeeps(e, s);
    }
  }

  lemma HeardOfSeries(e: Evidence, metric: Metric, lane: U16, t: Threshold)
    requires InSequence(e.samples)
    ensures var series := Series(e, e.samples, SeriesCode(metric, lane));
      && ((exists x :: Heard(series, t, e.uid, e.incarnation, e.now, e.skewNs, x)) <==> AnyUsable(e, metric, lane, t))
      && (Disagree(series, t, e.uid, e.incarnation, e.now, e.skewNs) <==> VoicesDisagree(e, metric, lane, t))
  {
    hide InSequence, Marked, Series, SeriesCode, Heard, UsableVoice, Disagree, VoicesDisagree;
    var series := Series(e, e.samples, SeriesCode(metric, lane));
    if x :| Heard(series, t, e.uid, e.incarnation, e.now, e.skewNs, x) {
      var s := UsableOf(e, metric, lane, t, x);
    }
    if s :| UsableVoice(e, metric, lane, t, s) {
      HeardOf(e, metric, lane, t, s);
    }
    if Disagree(series, t, e.uid, e.incarnation, e.now, e.skewNs) {
      SeriesDisagrees(e, metric, lane, t);
    }
    if VoicesDisagree(e, metric, lane, t) {
      DisagreementIsHeard(e, metric, lane, t);
    }
  }

  lemma SeriesDisagrees(e: Evidence, metric: Metric, lane: U16, t: Threshold)
    requires InSequence(e.samples)
    requires Disagree(Series(e, e.samples, SeriesCode(metric, lane)), t, e.uid, e.incarnation, e.now, e.skewNs)
    ensures VoicesDisagree(e, metric, lane, t)
  {
    hide InSequence, Marked, Series, SeriesCode, Heard, UsableVoice;
    var series := Series(e, e.samples, SeriesCode(metric, lane));
    var a, b :| Heard(series, t, e.uid, e.incarnation, e.now, e.skewNs, a)
                && Heard(series, t, e.uid, e.incarnation, e.now, e.skewNs, b)
                && a.source != b.source && a.value - b.value > t.disagreementTolerance;
    var c := UsableOf(e, metric, lane, t, a);
    var d := UsableOf(e, metric, lane, t, b);
  }

  lemma DisagreementIsHeard(e: Evidence, metric: Metric, lane: U16, t: Threshold)
    requires InSequence(e.samples) && VoicesDisagree(e, metric, lane, t)
    ensures Disagree(Series(e, e.samples, SeriesCode(metric, lane)), t, e.uid, e.incarnation, e.now, e.skewNs)
  {
    hide InSequence, Marked, Series, SeriesCode, Heard, UsableVoice;
    var a, b :| UsableVoice(e, metric, lane, t, a) && UsableVoice(e, metric, lane, t, b) && a.source != b.source
                && a.value - b.value > t.disagreementTolerance;
    HeardOf(e, metric, lane, t, a);
    HeardOf(e, metric, lane, t, b);
  }

  lemma UsableOf(e: Evidence, metric: Metric, lane: U16, t: Threshold, x: HealthSample) returns (s: HealthSample)
    requires InSequence(e.samples)
    requires Heard(Series(e, e.samples, SeriesCode(metric, lane)), t, e.uid, e.incarnation, e.now, e.skewNs, x)
    ensures UsableVoice(e, metric, lane, t, s) && x == Marked(e, s) && x == s.(live := x.live)
  {
    hide InSequence, Marked, Series, SeriesCode, Speaks, Voice;
    s := OnlyVoicesSpeak(e, metric, lane, x);
    MarkKeeps(e, s);
  }

  lemma HeardOf(e: Evidence, metric: Metric, lane: U16, t: Threshold, s: HealthSample)
    requires InSequence(e.samples) && UsableVoice(e, metric, lane, t, s)
    ensures Heard(Series(e, e.samples, SeriesCode(metric, lane)), t, e.uid, e.incarnation, e.now, e.skewNs,
                  Marked(e, s))
    ensures Marked(e, s) == s.(live := Marked(e, s).live)
  {
    hide InSequence, Marked, Series, SeriesCode, Speaks;
    VoicesSpeak(e, metric, lane, s);
    MarkKeeps(e, s);
  }

  lemma FencedOfSeries(e: Evidence, metric: Metric, lane: U16)
    requires InSequence(e.samples)
    ensures HasFenced(Series(e, e.samples, SeriesCode(metric, lane)), e.uid, e.incarnation)
            <==> AnyFenced(e, metric, lane)
  {
    hide InSequence, Marked, Series, SampleSeries, SeriesCode, Counts;
    var code := SeriesCode(metric, lane);
    var series := Series(e, e.samples, code);
    SeriesExactly(e, e.samples, code);
    if s :| Excluded(e, metric, lane, s) {
      SampleCarries(s, metric, lane);
      MarkedCounts(e, s);
      MarkKeeps(e, s);
      var x := Marked(e, s);
      assert x in series && x.moduleUid == e.uid && !Counts(x, e.uid, e.incarnation);
    }
    if x :| x in series && x.moduleUid == e.uid && !Counts(x, e.uid, e.incarnation) {
      var s :| s in e.samples && SampleSeries(s) == code && x == Marked(e, s);
      SampleCarries(s, metric, lane);
      MarkedCounts(e, s);
      MarkKeeps(e, s);
      assert Excluded(e, metric, lane, s);
    }
  }

  // ----- The state of a row -----

  /** Whose value a judged row goes by: a usable voice no other was observed after. */
  ghost predicate Deciding(e: Evidence, metric: Metric, lane: U16, t: Threshold, s: HealthSample) {
    && UsableVoice(e, metric, lane, t, s)
    && forall o :: UsableVoice(e, metric, lane, t, o) ==> o.wallNs <= s.wallNs
  }

  /** What the evidence alone makes of a series: every state, exactly. */
  ghost predicate EvidenceState(e: Evidence, metric: Metric, lane: U16, state: MetricState) {
    match SelectedThreshold(e.thresholds, metric, lane)
    case None =>
      if AnyMeasured(e, metric, lane) then state == UnclassifiedState
      else state == if !AnyVoice(e, metric, lane) && AnyFenced(e, metric, lane) then FencedState else UnknownState
    case Some(t) =>
      if VoicesDisagree(e, metric, lane, t) then state == ConflictingState
      else if AnyUsable(e, metric, lane, t) then
        exists s :: Deciding(e, metric, lane, t, s) && state == ClassifyValue(t, s.value)
      else if AnyMeasured(e, metric, lane) then state == StaleState
      else state == if !AnyVoice(e, metric, lane) && AnyFenced(e, metric, lane) then FencedState else UnknownState
  }

  lemma SeriesState(e: Evidence, metric: Metric, lane: U16)
    requires InSequence(e.samples)
    ensures EvidenceState(e, metric, lane,
                          Classify(Series(e, e.samples, SeriesCode(metric, lane)),
                                   SelectedThreshold(e.thresholds, metric, lane), e.uid, e.incarnation, e.now,
                                     e.skewNs).state)
  {
    hide InSequence, Series, SeriesCode, Speaks, Voice, Classify, SelectedThreshold, ClassifyValue, HasFenced;
    var series := Series(e, e.samples, SeriesCode(metric, lane));
    SeriesExactly(e, e.samples, SeriesCode(metric, lane));
    VoicesOfSeries(e, metric, lane);
    FencedOfSeries(e, metric, lane);
    var threshold := SelectedThreshold(e.thresholds, metric, lane);
    if AnyVoice(e, metric, lane) {
      if threshold.None? {
        UnjudgedExactly(series, e.uid, e.incarnation, e.now, e.skewNs);
      } else {
        var t := threshold.value;
        HeardOfSeries(e, metric, lane, t);
        JudgedExactly(series, t, e.uid, e.incarnation, e.now, e.skewNs);
        if AnyUsable(e, metric, lane, t) {
          var x :| LatestHeard(series, t, e.uid, e.incarnation, e.now, e.skewNs, x)
                   && (IsHysteresisState(Classify(series, threshold, e.uid, e.incarnation, e.now, e.skewNs).state) ==>
                       Classify(series, threshold, e.uid, e.incarnation, e.now, e.skewNs).state
                         == ClassifyValue(t, x.value));
          var s := DecidingOf(e, metric, lane, t, x);
        }
      }
    } else {
      SilenceExactly(series, threshold, e.uid, e.incarnation, e.now, e.skewNs);
      if threshold.Some? {
        HeardOfSeries(e, metric, lane, threshold.value);
        NobodyUsable(e, metric, lane, threshold.value);
      }
    }
  }

  lemma NobodyUsable(e: Evidence, metric: Metric, lane: U16, t: Threshold)
    requires !AnyVoice(e, metric, lane)
    ensures !AnyUsable(e, metric, lane, t) && !VoicesDisagree(e, metric, lane, t) && !AnyMeasured(e, metric, lane)
  {
    hide Voice;
  }

  lemma DecidingOf(e: Evidence, metric: Metric, lane: U16, t: Threshold, x: HealthSample) returns (s: HealthSample)
    requires InSequence(e.samples)
    requires LatestHeard(Series(e, e.samples, SeriesCode(metric, lane)), t, e.uid, e.incarnation, e.now, e.skewNs, x)
    ensures Deciding(e, metric, lane, t, s) && s.value == x.value
  {
    hide InSequence, Marked, Series, SeriesCode, Heard, UsableVoice;
    s := UsableOf(e, metric, lane, t, x);
    forall o | UsableVoice(e, metric, lane, t, o) ensures o.wallNs <= s.wallNs {
      HeardOf(e, metric, lane, t, o);
    }
  }

  /**
   * Every row of a report, in terms of the stored samples: its state is what the evidence makes of it, except that a
   * band the evidence supports gives way to the band its latch is in.
   */
  lemma RowExactly(e: Evidence, r: MetricHealth)
    requires InSequence(e.samples) && r in ReportOf(e).metrics
    ensures EvidenceState(e, r.metric, r.lane, r.classification.state)
    ensures var latch := FindLatch(e.latches, r.metric, r.lane);
      r.state == if IsHysteresisState(r.classification.state) && latch.Some?
        && IsHysteresisState(latch.value.latch.state)
                 then latch.value.latch.state else r.classification.state
    ensures r.sampleCount == |Filter(e.samples, (s: HealthSample) => s.metric == r.metric && s.lane == r.lane)|
  {
    hide InSequence, HealthReport.Outcome, Worst, TallyOf, EvidenceState, Classify, SelectedThreshold, Series,
         FindLatch, Rows;
    var codes, rows := Ascending(Rows(e)), ReportOf(e).metrics;
    var i :| 0 <= i < |rows| && rows[i] == r;
    assert codes[i] in codes;
    CodeSeries(e, codes[i]);
    SeriesState(e, r.metric, r.lane);
    SeriesSize(e, e.samples, codes[i]);
    SameFilter(e.samples, codes[i], r.metric, r.lane);
  }

  lemma {:induction false} SameFilter(samples: seq<HealthSample>, code: nat, metric: Metric, lane: U16)
    requires code == SeriesCode(metric, lane)
    ensures Filter(samples, (s: HealthSample) => SampleSeries(s) == code)
         == Filter(samples, (s: HealthSample) => s.metric == metric && s.lane == lane)
  {
    hide SampleSeries, SeriesCode;
    if samples != [] {
      SameFilter(samples[..|samples| - 1], code, metric, lane);
      SampleCarries(samples[|samples| - 1], metric, lane);
      var front, x := samples[..|samples| - 1], samples[|samples| - 1];
      assert samples == front + [x];
      FilterLast(front, x, (s: HealthSample) => SampleSeries(s) == code);
      FilterLast(front, x, (s: HealthSample) => s.metric == metric && s.lane == lane);
    } else {
      FilterNone((s: HealthSample) => SampleSeries(s) == code);
      FilterNone((s: HealthSample) => s.metric == metric && s.lane == lane);
    }
  }

  // ----- The report as a whole -----

  ghost predicate Among(rows: seq<MetricHealth>, state: MetricState) { exists r :: r in rows && r.state == state }

  ghost predicate Every(rows: seq<MetricHealth>, state: MetricState) { forall r :: r in rows ==> r.state == state }

  predicate Current(state: MetricState) { IsHysteresisState(state) || state == UnclassifiedState }

  /** The outcome, from the states of the rows alone. */
  lemma OutcomeExactly(e: Evidence)
    ensures var rows, outcome := ReportOf(e).metrics, ReportOf(e).outcome;
      && (outcome == ConflictingOutcome <==> Among(rows, ConflictingState))
      && (outcome == FencedOutcome <==> rows != [] && Every(rows, FencedState))
      && (outcome == StaleOutcome <==> rows != [] && Every(rows, StaleState))
      && (outcome == UnknownOutcome <==> Every(rows, UnknownState))
      && (outcome == FreshOutcome <==> rows != [] && forall r :: r in rows ==> Current(r.state))
  {
    var rows := ReportOf(e).metrics;
    hide ReportOf, Worst;
    assert ReportOf(e).outcome == HealthReport.Outcome(rows, TallyOf(rows)) by { ReportParts(e); }
    CountsExactly(rows);
    if rows != [] {
      assert rows[0] in rows;
    }
  }

  lemma ReportParts(e: Evidence)
    ensures ReportOf(e).outcome == HealthReport.Outcome(ReportOf(e).metrics, TallyOf(ReportOf(e).metrics))
    ensures ReportOf(e).worst == Worst(ReportOf(e).metrics)
  {
  }

  lemma KindsExactly(state: MetricState)
    ensures KindOf(state) == ConflictingRow <==> state == ConflictingState
    ensures KindOf(state) == FencedRow <==> state == FencedState
    ensures KindOf(state) == StaleRow <==> state == StaleState
    ensures KindOf(state) == UnknownRow <==> state == UnknownState
    ensures KindOf(state) == FreshRow <==> Current(state)
  {
  }

  lemma CountsExactly(rows: seq<MetricHealth>)
    ensures Count(rows, ConflictingRow) > 0 <==> Among(rows, ConflictingState)
    ensures Count(rows, FencedRow) == |rows| <==> Every(rows, FencedState)
    ensures Count(rows, StaleRow) == |rows| <==> Every(rows, StaleState)
    ensures Count(rows, UnknownRow) == |rows| <==> Every(rows, UnknownState)
    ensures Count(rows, FreshRow) == |rows| <==> forall r :: r in rows ==> Current(r.state)
  {
    hide Count, KindOf, Current;
    forall state: MetricState
      ensures KindOf(state) == ConflictingRow <==> state == ConflictingState
      ensures KindOf(state) == FencedRow <==> state == FencedState
      ensures KindOf(state) == StaleRow <==> state == StaleState
      ensures KindOf(state) == UnknownRow <==> state == UnknownState
      ensures KindOf(state) == FreshRow <==> Current(state)
    {
      KindsExactly(state);
    }
  }

  /**
   * The worst state: critical, degraded, conflicting, then what is stale or fenced, then what is not known, then Ok.
   */
  lemma WorstExactly(e: Evidence)
    requires ReportOf(e).metrics != []
    ensures var rows, worst := ReportOf(e).metrics, ReportOf(e).worst;
      var evident := Among(rows, CriticalState) || Among(rows, DegradedState);
      && Among(rows, worst)
      && (worst == CriticalState <==> Among(rows, CriticalState))
      && (worst == DegradedState <==> !Among(rows, CriticalState) && Among(rows, DegradedState))
      && (worst == ConflictingState <==> !evident && Among(rows, ConflictingState))
      && (worst == StaleState || worst == FencedState <==>
          !evident && !Among(rows, ConflictingState) && (Among(rows, StaleState) || Among(rows, FencedState)))
      && (worst == OkState <==> Every(rows, OkState))
  {
    var rows := ReportOf(e).metrics;
    hide ReportOf;
    ReportParts(e);
    WorstOf(rows);
  }

  lemma WorstOf(rows: seq<MetricHealth>)
    requires rows != []
    ensures var worst := Worst(rows);
      var evident := Among(rows, CriticalState) || Among(rows, DegradedState);
      && Among(rows, worst)
      && (worst == CriticalState <==> Among(rows, CriticalState))
      && (worst == DegradedState <==> !Among(rows, CriticalState) && Among(rows, DegradedState))
      && (worst == ConflictingState <==> !evident && Among(rows, ConflictingState))
      && (worst == StaleState || worst == FencedState <==>
          !evident && !Among(rows, ConflictingState) && (Among(rows, StaleState) || Among(rows, FencedState)))
      && (worst == OkState <==> Every(rows, OkState))
  {
    var worst := Worst(rows);
    hide Worst;
    assert exists r :: r in rows && r.state == worst;
    assert forall r :: r in rows ==> Severity(r.state) <= Severity(worst);
  }
}
