/** Reconciliation in terms of what is stored: src/registry.cpp:2010-2080. */
module Reconciliation {
  import opened Bytes
  import opened Consensus
  import opened Capability
  import opened Lifecycle
  import opened Latch
  import opened Health
  import opened HealthReport
  import opened HealthMeaning
  import opened ReportMeaning
  import opened RegistryState
  import opened Mutations
  import opened RegistryInvariant
  import opened InvariantSteps
  import Effects

  /** The rows of the report a reconciliation of this module builds. */
  function RowsFor(st: State, uid: nat, config: Config, now: int): seq<MetricHealth>
    requires uid in st.modules
  {
    ReportOf(EvidenceOf(st, st.modules[uid], config, now)).metrics
  }

  /**
   * It degrades on a degraded or critical row, activates when there are rows and all are Ok, and otherwise leaves all
   * be.
   */
  lemma ReconcileExactly(st: State, a: RegistryState.Authority, h: Handle, config: Config, clock: Clock, s: Stamp)
    requires ReconcileBody(st, a, h, config, clock, s).Ok?
    ensures h.uid in st.modules && h.uid in ReconcileBody(st, a, h, config, clock, s).value.modules
    ensures var before := st.modules[h.uid].state;
      var after := ReconcileBody(st, a, h, config, clock, s).value.modules[h.uid].state;
      var rows := RowsFor(st, h.uid, config, clock.reportWallNs);
      && (after == Degraded != before <==>
          (before == Active || before == Attached) && (Among(rows, CriticalState) || Among(rows, DegradedState)))
      && (after == Active != before <==>
          (before == Degraded || before == Attached) && rows != [] && Every(rows, OkState))
      && (after != before ==> after == Degraded || after == Active)
      && (after == before ==> ReconcileBody(st, a, h, config, clock, s).value == st)
  {
    hide ReportOf, ReconcileBody, EvidenceOf;
    Effects.ReconcileFollowsEvidence(st, a, h, config, clock, s);
    var e := EvidenceOf(st, st.modules[h.uid], config, clock.reportWallNs);
    HealthyIffAllOk(e);
    if ReportOf(e).metrics != [] {
      WorstExactly(e);
    } else {
      NoRows(e);
    }
  }

  lemma NoRows(e: Evidence)
    requires ReportOf(e).metrics == []
    ensures ReportOf(e).worst == UnknownState
  {
    ReportParts(e);
  }

  /** What the report reads from the registry. */
  lemma EvidenceExactly(st: State, uid: nat, config: Config, now: int)
    requires uid in st.modules
    ensures var r, e := st.modules[uid], EvidenceOf(st, st.modules[uid], config, now);
      && e.samples == r.samples && e.latches == r.latches && e.uid == r.uid && e.incarnation == r.incarnation
      && e.now == now && e.skewNs == config.maxFutureSkewNs
      && e.epochs.Keys == st.sources.Keys && (forall id :: id in st.sources ==> e.epochs[id] == st.sources[id].epoch)
      && (forall t :: t in e.thresholds <==> exists p :: p in st.thresholds && p.live && p.threshold == t)
      && (forall metric :: metric in e.telemetry <==> Declares(r, metric))
  {
    hide LiveThresholds, DeclaredTelemetry;
    ThresholdsExactly(st.thresholds);
    forall metric ensures metric in DeclaredTelemetry(st.modules[uid].declarations, st.modules[uid].incarnation)
                     <==> Declares(st.modules[uid], metric)
    {
      TelemetryExactly(st.modules[uid], st.modules[uid].declarations, metric);
    }
  }

  lemma {:induction false} ThresholdsExactly(ts: seq<ThresholdRecord>)
    ensures forall t :: t in LiveThresholds(ts) <==> exists p :: p in ts && p.live && p.threshold == t
  {
    if ts != [] {
      ThresholdsExactly(ts[..|ts| - 1]);
      assert ts == ts[..|ts| - 1] + [ts[|ts| - 1]];
    }
  }

  /** The capability that says a metric can be read. */
  function TelemetryKey(metric: Metric): nat {
    match metric
    case TemperatureCelsius => 16
    case SupplyVoltageVolts => 17
    case TxPowerDbm => 18
    case RxPowerDbm => 19
    case TxBiasCurrentMilliamps => 20
    case LaneSkewPicoseconds => 21
    case _ => 0
  }

  ghost predicate DeclaredIn(declarations: seq<Declaration>, incarnation: nat, metric: Metric) {
    exists d :: d in declarations && d.incarnation == incarnation && d.live && d.value == BooleanValue(true)
                && TelemetryKey(metric) != 0 && d.attr == TelemetryKey(metric)
  }

  /** The module declares, for its current incarnation, that it reports this metric. */
  ghost predicate Declares(r: ModuleRecord, metric: Metric) { DeclaredIn(r.declarations, r.incarnation, metric) }

  lemma {:induction false} TelemetryExactly(r: ModuleRecord, declarations: seq<Declaration>, metric: Metric)
    ensures metric in DeclaredTelemetry(declarations, r.incarnation)
            <==> DeclaredIn(declarations, r.incarnation, metric)
  {
    if declarations != [] {
      var front, d := declarations[..|declarations| - 1], declarations[|declarations| - 1];
      TelemetryExactly(r, front, metric);
      assert declarations == front + [d];
      assert TelemetryMetric(d.attr) == Some(metric) <==> TelemetryKey(metric) != 0 && d.attr == TelemetryKey(metric);
      hide TelemetryMetric, TelemetryKey;
    }
  }

  /** A stored measurement of the series that still counts. */
  predicate Backing(st: State, uid: nat, metric: Metric, lane: U16, latest: int, x: HealthSample)
    requires uid in st.modules
  {
    var r := st.modules[uid];
    && x in r.samples && x.metric == metric && x.lane == lane && x.moduleUid == r.uid && x.incarnation == r.incarnation
    && x.source in st.sources && st.sources[x.source].epoch == x.epoch && x.presence == Present && x.wallNs <= latest
  }

  /**
   * No module is activated on policy nobody measured: each published threshold, each declared metric has a measurement.
   */
  lemma ActivationNeedsEvidence(st: State, a: RegistryState.Authority, h: Handle, config: Config, clock: Clock,
                                s: Stamp, metric: Metric, lane: U16)
    returns (t: Threshold, x: HealthSample)
    requires ReconcileBody(st, a, h, config, clock, s).Ok? && h.uid in st.modules
    requires h.uid in ReconcileBody(st, a, h, config, clock, s).value.modules
    requires ReconcileBody(st, a, h, config, clock, s).value.modules[h.uid].state == Active != st.modules[h.uid].state
    requires || (exists p :: p in st.thresholds && p.live && p.threshold.metric == metric && p.threshold.lane == lane)
             || (Declares(st.modules[h.uid], metric) && lane == MODULE_LANE)
    ensures Backing(st, h.uid, metric, lane, clock.reportWallNs + config.maxFutureSkewNs, x)
    ensures (exists p :: p in st.thresholds && p.live && p.threshold == t)
            && t.metric == metric && (t.lane == lane || t.lane == MODULE_LANE)
    ensures clock.reportWallNs - x.wallNs <= t.maxAgeNs
  {
    hide ReconcileBody, EvidenceOf, ReportOf, Healthy, Declares;
    ReconcileExactly(st, a, h, config, clock, s);
    var e := EvidenceOf(st, st.modules[h.uid], config, clock.reportWallNs);
    EvidenceExactly(st, h.uid, config, clock.reportWallNs);
    HealthyIffAllOk(e);
    if p :| p in st.thresholds && p.live && p.threshold.metric == metric && p.threshold.lane == lane {
      t, x := HealthyMeetsPolicy(e, p.threshold);
    } else {
      t, x := HealthyMeetsTelemetry(e, metric);
    }
  }

  /** What classification asks of a sample list holds of every module of a reachable state. */
  lemma StoredInSequence(st: State, uid: nat)
    requires Inv(st, st.nextSequence) && uid in st.modules
    ensures InSequence(st.modules[uid].samples)
  {
    RecordAt(st, uid, st.nextSequence);
  }
}
