/** The health report of one module (`build_health_report` of src/registry.cpp). */
module HealthReport {
  import opened Bytes
  import opened Ordering
  import opened Authority
  import opened Latch
  import opened Health

  datatype LatchRecord = LatchRecord(metric: Metric, lane: U16, latch: Latch)

  datatype MetricHealth = MetricHealth(
    metric: Metric,
    lane: U16,
    state: MetricState,
    classification: Classification,
    sampleCount: nat)

  datatype HealthOutcome =
    | UnknownOutcome | FreshOutcome | PartialOutcome | StaleOutcome | ConflictingOutcome | FencedOutcome

  datatype Report = Report(outcome: HealthOutcome, worst: MetricState, metrics: seq<MetricHealth>)

  /** What the report reads from the registry: live thresholds, the module's samples, latches
      and declared telemetry, the current source epochs, and the clock. */
  datatype Evidence = Evidence(
    thresholds: seq<Threshold>,
    samples: seq<HealthSample>,
    latches: seq<LatchRecord>,
    telemetry: seq<Metric>,
    epochs: map<nat, nat>,
    uid: nat,
    incarnation: nat,
    now: int,
    skewNs: int)

  // ----- series keys ---------------------------------------------------------------------

  function MetricCode(metric: Metric): nat {
    match metric
    case UnknownMetric => 0
    case TemperatureCelsius => 1
    case SupplyVoltageVolts => 2
    case TxPowerDbm => 3
    case RxPowerDbm => 4
    case TxBiasCurrentMilliamps => 5
    case LaneSkewPicoseconds => 6
    case UnsupportedMetric => 7
  }

  function MetricOf(code: nat): Metric {
    if code == 1 then TemperatureCelsius
    else if code == 2 then SupplyVoltageVolts
    else if code == 3 then TxPowerDbm
    else if code == 4 then RxPowerDbm
    else if code == 5 then TxBiasCurrentMilliamps
    else if code == 6 then LaneSkewPicoseconds
    else if code == 7 then UnsupportedMetric
    else UnknownMetric
  }

  /** The pair (metric, lane) as one number that orders the pairs as std::map does. */
  function SeriesCode(metric: Metric, lane: U16): nat {
    MetricCode(metric) * 0x1_0000 + lane
  }

  function CodeMetric(code: nat): Metric {
    MetricOf(code / 0x1_0000)
  }

  function CodeLane(code: nat): U16 {
    code % 0x1_0000
  }

  lemma SeriesCodeInverse(metric: Metric, lane: U16)
    ensures CodeMetric(SeriesCode(metric, lane)) == metric
    ensures CodeLane(SeriesCode(metric, lane)) == lane
  {
  }

  function SampleSeries(s: HealthSample): nat {
    SeriesCode(s.metric, s.lane)
  }

  // ----- rows ----------------------------------------------------------------------------

  function Rows(e: Evidence): set<nat> {
    (set t | t in e.thresholds :: SeriesCode(t.metric, t.lane))
    + (set s | s in e.samples && s.incarnation == e.incarnation :: SampleSeries(s))
    + (set m | m in e.telemetry :: SeriesCode(m, MODULE_LANE))
  }

  function Marked(e: Evidence, s: HealthSample): HealthSample {
    s.(live := s.incarnation == e.incarnation && SourceIsLive(e.epochs, s.source, s.epoch))
  }

  /** The samples of one series, with their live flags recomputed. */
  function Series(e: Evidence, samples: seq<HealthSample>, code: nat): (r: seq<HealthSample>)
    ensures forall x :: x in r ==> exists s :: s in samples && SampleSeries(s) == code && x == Marked(e, s)
  {
    if samples == [] then []
    else
      var front, s := Series(e, samples[..|samples| - 1], code), samples[|samples| - 1];
      assert samples == samples[..|samples| - 1] + [s];
      if SampleSeries(s) == code then front + [Marked(e, s)] else front
  }

  function FindLatch(latches: seq<LatchRecord>, metric: Metric, lane: U16): Option<LatchRecord> {
    if latches == [] then None
    else if latches[0].metric == metric && latches[0].lane == lane then Some(latches[0])
    else FindLatch(latches[1..], metric, lane)
  }

  function RowClassification(e: Evidence, code: nat): Classification {
    Classify(Series(e, e.samples, code), SelectedThreshold(e.thresholds, CodeMetric(code), CodeLane(code)),
             e.uid, e.incarnation, e.now, e.skewNs)
  }

  /** Hysteresis only refines a classification the evidence already produced. */
  function Refine(c: Classification, latch: Option<LatchRecord>): MetricState {
    if IsHysteresisState(c.state) && latch.Some? && IsHysteresisState(latch.value.latch.state)
    then latch.value.latch.state else c.state
  }

  function RowHealth(e: Evidence, code: nat): MetricHealth {
    var c := RowClassification(e, code);
    var latch := FindLatch(e.latches, CodeMetric(code), CodeLane(code));
    MetricHealth(CodeMetric(code), CodeLane(code), Refine(c, latch), c, |Series(e, e.samples, code)|)
  }

  function RowsHealth(e: Evidence, codes: seq<nat>): (r: seq<MetricHealth>)
    ensures |r| == |codes|
  {
    seq(|codes|, i requires 0 <= i < |codes| => RowHealth(e, codes[i]))
  }

  // ----- aggregation ---------------------------------------------------------------------

  datatype RowKind = FreshRow | StaleRow | UnknownRow | ConflictingRow | FencedRow

  function KindOf(s: MetricState): RowKind {
    match s
    case StaleState => StaleRow
    case UnknownState => UnknownRow
    case FencedState => FencedRow
    case ConflictingState => ConflictingRow
    case UnclassifiedState => FreshRow
    case OkState => FreshRow
    case DegradedState => FreshRow
    case CriticalState => FreshRow
  }

  function Count(rows: seq<MetricHealth>, kind: RowKind): (n: nat)
    ensures n <= |rows|
    ensures n == |rows| <==> forall r :: r in rows ==> KindOf(r.state) == kind
    ensures n == 0 <==> forall r :: r in rows ==> KindOf(r.state) != kind
  {
    if rows == [] then 0
    else
      var r := rows[|rows| - 1];
      assert rows == rows[..|rows| - 1] + [r];
      Count(rows[..|rows| - 1], kind) + if KindOf(r.state) == kind then 1 else 0
  }

  function Severity(s: MetricState): nat {
    match s
    case CriticalState => 5
    case DegradedState => 4
    case ConflictingState => 3
    case StaleState => 2
    case FencedState => 2
    case UnknownState => 1
    case UnclassifiedState => 1
    case OkState => 0
  }

  function Worst(rows: seq<MetricHealth>): (w: MetricState)
    ensures rows != [] ==> forall r :: r in rows ==> Severity(r.state) <= Severity(w)
    ensures rows != [] ==> exists r :: r in rows && r.state == w
  {
    if rows == [] then UnknownState
    else
      var r := rows[|rows| - 1];
      assert rows == rows[..|rows| - 1] + [r];
      var front := Worst(rows[..|rows| - 1]);
      if |rows| == 1 || Severity(r.state) > Severity(front) then r.state else front
  }

  /** The per-kind counters of the report loop. */
  datatype Tally = Tally(current: nat, stale: nat, unknown: nat, conflicting: nat, fenced: nat)

  function Bump(t: Tally, kind: RowKind): Tally {
    match kind
    case FreshRow => t.(current := t.current + 1)
    case StaleRow => t.(stale := t.stale + 1)
    case UnknownRow => t.(unknown := t.unknown + 1)
    case ConflictingRow => t.(conflicting := t.conflicting + 1)
    case FencedRow => t.(fenced := t.fenced + 1)
  }

  function TallyOf(rows: seq<MetricHealth>): Tally {
    Tally(Count(rows, FreshRow), Count(rows, StaleRow), Count(rows, UnknownRow),
          Count(rows, ConflictingRow), Count(rows, FencedRow))
  }

  function Outcome(rows: seq<MetricHealth>, t: Tally): HealthOutcome {
    if rows == [] then UnknownOutcome
    else if t.conflicting > 0 then ConflictingOutcome
    else if t.fenced == |rows| then FencedOutcome
    else if t.unknown == |rows| then UnknownOutcome
    else if t.stale == |rows| then StaleOutcome
    else if t.current == |rows| then FreshOutcome
    else PartialOutcome
  }

  function ReportOf(e: Evidence): Report {
    var rows := RowsHealth(e, Ascending(Rows(e)));
    Report(Outcome(rows, TallyOf(rows)), Worst(rows), rows)
  }

  /** `HealthReport::healthy`. */
  predicate Healthy(r: Report) {
    r.outcome == FreshOutcome && r.worst == OkState
  }

  // ----- the report loop -----------------------------------------------------------------

  lemma RowLast(e: Evidence, codes: seq<nat>, i: nat)
    requires i < |codes|
    ensures RowsHealth(e, codes[..i + 1]) == RowsHealth(e, codes[..i]) + [RowHealth(e, codes[i])]
  {
    hide RowHealth;
  }

  lemma AggregateLast(rows: seq<MetricHealth>, r: MetricHealth)
    ensures TallyOf(rows + [r]) == Bump(TallyOf(rows), KindOf(r.state))
    ensures Worst(rows + [r]) ==
            if rows == [] || Severity(r.state) > Severity(Worst(rows)) then r.state else Worst(rows)
  {
    assert (rows + [r])[..|rows|] == rows;
  }

  method BuildSeries(e: Evidence, code: nat) returns (series: seq<HealthSample>)
    ensures series == Series(e, e.samples, code)
  {
    series := [];
    for i := 0 to |e.samples|
      invariant series == Series(e, e.samples[..i], code)
    {
      assert e.samples[..i + 1][..i] == e.samples[..i];
      if SampleSeries(e.samples[i]) == code {
        series := series + [Marked(e, e.samples[i])];
      }
    }
    assert e.samples[..|e.samples|] == e.samples;
  }

  /** `build_health_report`: one row per series, counters per kind, the running worst state. */
  method BuildHealthReport(e: Evidence) returns (report: Report)
    ensures report == ReportOf(e)
  {
    hide TallyOf, Worst, RowHealth, RowsHealth, Rows, Severity, KindOf, Bump;
    var codes := Ascending(Rows(e));
    var rows: seq<MetricHealth> := [];
    var tally := Tally(0, 0, 0, 0, 0);
    var worst := OkState;
    EmptyAggregate(e);
    for i := 0 to |codes|
      invariant rows == RowsHealth(e, codes[..i])
      invariant tally == TallyOf(rows)
      invariant rows != [] ==> worst == Worst(rows)
    {
      var row := BuildRow(e, codes[i]);
      RowLast(e, codes, i);
      AggregateLast(rows, row);
      tally := Bump(tally, KindOf(row.state));
      if Severity(row.state) > Severity(worst) || rows == [] {
        worst := row.state;
      }
      rows := rows + [row];
    }
    assert codes[..|codes|] == codes;
    report := Report(Outcome(rows, tally), if rows == [] then UnknownState else worst, rows);
  }

  lemma EmptyAggregate(e: Evidence)
    ensures RowsHealth(e, []) == [] && Worst([]) == UnknownState
    ensures TallyOf([]) == Tally(0, 0, 0, 0, 0)
  {
  }

  method BuildRow(e: Evidence, code: nat) returns (row: MetricHealth)
    ensures row == RowHealth(e, code)
  {
    var series := BuildSeries(e, code);
    hide Classify, SelectedThreshold, Series;
    var threshold := SelectThreshold(e.thresholds, CodeMetric(code), CodeLane(code));
    var c := ClassifySeries(series, threshold, e.uid, e.incarnation, e.now, e.skewNs);
    var state := c.state;
    if IsHysteresisState(c.state) {
      var latch := FindLatch(e.latches, CodeMetric(code), CodeLane(code));
      if latch.Some? && IsHysteresisState(latch.value.latch.state) {
        state := latch.value.latch.state;
      }
    }
    row := MetricHealth(CodeMetric(code), CodeLane(code), state, c, |series|);
  }

  // ----- evidence-gated health -----------------------------------------------------------

  /** Healthy means: there is a row, and every row is Ok. */
  lemma HealthyIffAllOk(e: Evidence)
    ensures Healthy(ReportOf(e)) <==> ReportOf(e).metrics != [] && forall r :: r in ReportOf(e).metrics ==>
            r.state == OkState
  {
    hide RowsHealth;
    var rows := ReportOf(e).metrics;
    AllOk(rows);
  }

  lemma AllOk(rows: seq<MetricHealth>)
    ensures Outcome(rows, TallyOf(rows)) == FreshOutcome && Worst(rows) == OkState
       <==> rows != [] && forall r :: r in rows ==> r.state == OkState
  {
    if rows != [] {
      assert rows[0] in rows;
      if Worst(rows) == OkState {
        forall r | r in rows ensures r.state == OkState {
          assert Severity(r.state) == 0;
        }
      }
    }
  }

  /**
   * A series is reported exactly when a published threshold, a sample of the incarnation or declared telemetry names
   * it.
   */
  lemma RowsExactly(e: Evidence, metric: Metric, lane: U16)
    ensures (exists r :: r in ReportOf(e).metrics && r.metric == metric && r.lane == lane) <==>
            || (exists t :: t in e.thresholds && t.metric == metric && t.lane == lane)
            || (exists s :: s in e.samples && s.incarnation == e.incarnation && s.metric == metric && s.lane == lane)
            || (metric in e.telemetry && lane == MODULE_LANE)
  {
    hide RowHealth, Ascending, SeriesCode, CodeMetric, CodeLane, Outcome, Worst, TallyOf;
    var codes, rows := Ascending(Rows(e)), ReportOf(e).metrics;
    var code := SeriesCode(metric, lane);
    assert |rows| == |codes|;
    forall i | 0 <= i < |rows| ensures rows[i].metric == metric && rows[i].lane == lane <==> codes[i] == code {
      RowNames(e, codes[i], metric, lane);
    }
    CodesCome(e, metric, lane);
    if code in Rows(e) {
      var i :| 0 <= i < |codes| && codes[i] == code;
      assert rows[i] in rows;
    }
    if r :| r in rows && r.metric == metric && r.lane == lane {
      var i :| 0 <= i < |rows| && rows[i] == r;
      assert codes[i] in codes;
    }
  }

  /** A row carries the metric and lane its number stands for. */
  lemma RowNames(e: Evidence, code: nat, metric: Metric, lane: U16)
    requires code in Rows(e)
    ensures RowHealth(e, code).metric == metric && RowHealth(e, code).lane == lane <==> code == SeriesCode(metric, lane)
  {
    hide Classify, Series, SelectedThreshold, FindLatch;
    SeriesCodeInverse(metric, lane);
    CodeSeries(e, code);
  }

  lemma CodeSeries(e: Evidence, code: nat)
    requires code in Rows(e)
    ensures SeriesCode(CodeMetric(code), CodeLane(code)) == code
  {
    if t :| t in e.thresholds && code == SeriesCode(t.metric, t.lane) {
      SeriesCodeInverse(t.metric, t.lane);
    } else if s :| s in e.samples && code == SampleSeries(s) {
      SeriesCodeInverse(s.metric, s.lane);
    } else {
      var m :| m in e.telemetry && code == SeriesCode(m, MODULE_LANE);
      SeriesCodeInverse(m, MODULE_LANE);
    }
  }

  lemma SameCode(a: Metric, i: U16, b: Metric, j: U16)
    ensures SeriesCode(a, i) == SeriesCode(b, j) <==> a == b && i == j
  {
    SeriesCodeInverse(a, i);
    SeriesCodeInverse(b, j);
  }

  lemma CodesCome(e: Evidence, metric: Metric, lane: U16)
    ensures SeriesCode(metric, lane) in Rows(e) <==>
            || (exists t :: t in e.thresholds && t.metric == metric && t.lane == lane)
            || (exists s :: s in e.samples && s.incarnation == e.incarnation && s.metric == metric && s.lane == lane)
            || (metric in e.telemetry && lane == MODULE_LANE)
  {
    hide SeriesCode;
    forall t | t in e.thresholds
      ensures SeriesCode(t.metric, t.lane) == SeriesCode(metric, lane) <==> t.metric == metric && t.lane == lane
    {
      SameCode(t.metric, t.lane, metric, lane);
    }
    forall s | s in e.samples
      ensures SampleSeries(s) == SeriesCode(metric, lane) <==> s.metric == metric && s.lane == lane
    {
      SameCode(s.metric, s.lane, metric, lane);
    }
    forall m | m in e.telemetry
      ensures SeriesCode(m, MODULE_LANE) == SeriesCode(metric, lane) <==> m == metric && MODULE_LANE == lane
    {
      SameCode(m, MODULE_LANE, metric, lane);
    }
  }

  /** Rows stand in the order of metric, then lane, each series once. */
  lemma RowsAscend(e: Evidence, i: nat, j: nat)
    requires i < j < |ReportOf(e).metrics|
    ensures var a, b := ReportOf(e).metrics[i], ReportOf(e).metrics[j];
      MetricCode(a.metric) < MetricCode(b.metric) || (a.metric == b.metric && a.lane < b.lane)
  {
    hide RowHealth, Rows, Outcome, Worst, TallyOf;
    var codes := Ascending(Rows(e));
    assert codes[i] in codes && codes[j] in codes;
    CodeSeries(e, codes[i]);
    CodeSeries(e, codes[j]);
    RowCarries(e, codes[i]);
    RowCarries(e, codes[j]);
    CodesOrder(codes[i], codes[j]);
  }

  lemma RowCarries(e: Evidence, code: nat)
    ensures RowHealth(e, code).metric == CodeMetric(code) && RowHealth(e, code).lane == CodeLane(code)
  {
  }

  lemma CodesOrder(a: nat, b: nat)
    requires a < b && SeriesCode(CodeMetric(a), CodeLane(a)) == a && SeriesCode(CodeMetric(b), CodeLane(b)) == b
    ensures MetricCode(CodeMetric(a)) < MetricCode(CodeMetric(b))
            || (CodeMetric(a) == CodeMetric(b) && CodeLane(a) < CodeLane(b))
  {
    hide CodeMetric, CodeLane;
  }

  /** The stored sample s supports a series: measured, of the current incarnation and the
      current epoch of its source, not from the future and not older than the bound. */
  ghost predicate Supporting(e: Evidence, metric: Metric, lane: U16, t: Threshold, s: HealthSample) {
    && s in e.samples && s.metric == metric && s.lane == lane
    && s.moduleUid == e.uid && s.incarnation == e.incarnation && s.source in e.epochs && e.epochs[s.source] == s.epoch
    && s.presence == Present && s.wallNs <= e.now + e.skewNs && e.now - s.wallNs <= t.maxAgeNs
  }

  /** The newest usable samples of a series, one per source. */
  function RowFresh(e: Evidence, metric: Metric, lane: U16, t: Threshold): seq<HealthSample> {
    FreshOf(Newest(Series(e, e.samples, SeriesCode(metric, lane)), e.uid, e.incarnation), t, e.now, e.skewNs)
  }

  /** In a healthy report every row rests on a published threshold and on a supporting sample,
      and all contributing sources agree within the published tolerance. */
  lemma HealthyRestsOnEvidence(e: Evidence, r: MetricHealth) returns (t: Threshold, s: HealthSample)
    requires Healthy(ReportOf(e)) && r in ReportOf(e).metrics
    ensures t in e.thresholds && t.live && t.metric == r.metric && (t.lane == r.lane || t.lane == MODULE_LANE)
    ensures Supporting(e, r.metric, r.lane, t, s)
    ensures var used := RowFresh(e, r.metric, r.lane, t);
            forall a, b :: a in used && b in used && |used| > 1 ==> a.value - b.value <= t.disagreementTolerance
  {
    HealthyIffAllOk(e);
    hide RowHealth, Rows, Outcome, Worst, TallyOf, Healthy;
    var codes, rows := Ascending(Rows(e)), ReportOf(e).metrics;
    var i :| 0 <= i < |rows| && rows[i] == r;
    var code := codes[i];
    assert code in codes;
    hide ReportOf, RowsHealth;
    RowCarries(e, code);
    CodeSeries(e, code);
    t, s := RowEvidence(e, code);
    SampleCarries(s, r.metric, r.lane);
  }

  lemma SampleCarries(s: HealthSample, metric: Metric, lane: U16)
    ensures SampleSeries(s) == SeriesCode(metric, lane) <==> s.metric == metric && s.lane == lane
  {
    SameCode(s.metric, s.lane, metric, lane);
  }

  lemma RowEvidence(e: Evidence, code: nat) returns (t: Threshold, s: HealthSample)
    requires RowHealth(e, code).state == OkState && SeriesCode(CodeMetric(code), CodeLane(code)) == code
    ensures t in e.thresholds && t.live && t.metric == CodeMetric(code)
            && (t.lane == CodeLane(code) || t.lane == MODULE_LANE)
    ensures SampleSeries(s) == code && Supporting(e, s.metric, s.lane, t, s)
    ensures var used := RowFresh(e, CodeMetric(code), CodeLane(code), t);
            forall a, b :: a in used && b in used && |used| > 1 ==> a.value - b.value <= t.disagreementTolerance
  {
    hide Classify, Series, LastFor, Newest, FreshOf, CodeMetric, CodeLane, FindLatch, ClassifyValue, SeriesCode;
    var series := Series(e, e.samples, code);
    var threshold := SelectedThreshold(e.thresholds, CodeMetric(code), CodeLane(code));
    var basis := ZoneRestsOnEvidence(series, threshold, e.uid, e.incarnation, e.now, e.skewNs);
    LastForExact(e.thresholds, CodeMetric(code), CodeLane(code));
    LastForExact(e.thresholds, CodeMetric(code), MODULE_LANE);
    t := threshold.value;
    s :| s in e.samples && SampleSeries(s) == code && basis == Marked(e, s);
  }

  /** In a healthy report every published threshold has a row, and its own series has a supporting sample. */
  lemma HealthyMeetsPolicy(e: Evidence, p: Threshold) returns (t: Threshold, s: HealthSample)
    requires Healthy(ReportOf(e)) && p in e.thresholds
    ensures t in e.thresholds && t.live && t.metric == p.metric && (t.lane == p.lane || t.lane == MODULE_LANE)
    ensures Supporting(e, p.metric, p.lane, t, s)
  {
    hide Healthy, ReportOf;
    RowsExactly(e, p.metric, p.lane);
    var r :| r in ReportOf(e).metrics && r.metric == p.metric && r.lane == p.lane;
    t, s := HealthyRestsOnEvidence(e, r);
  }

  /** ... and so has every metric the module declares it can report. */
  lemma HealthyMeetsTelemetry(e: Evidence, metric: Metric) returns (t: Threshold, s: HealthSample)
    requires Healthy(ReportOf(e)) && metric in e.telemetry
    ensures t in e.thresholds && t.live && t.metric == metric && t.lane == MODULE_LANE
    ensures Supporting(e, metric, MODULE_LANE, t, s)
  {
    hide Healthy, ReportOf;
    RowsExactly(e, metric, MODULE_LANE);
    var r :| r in ReportOf(e).metrics && r.metric == metric && r.lane == MODULE_LANE;
    t, s := HealthyRestsOnEvidence(e, r);
  }
}
