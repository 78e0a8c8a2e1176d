/** Threshold validation, classification and the hysteresis latch of src/health.cpp. */
module Latch {
  // Doubles are reals and wall-clock nanoseconds are integers.

  import opened Bytes
  import opened Provenances

  datatype Metric =
    | UnknownMetric | TemperatureCelsius | SupplyVoltageVolts | TxPowerDbm | RxPowerDbm
    | TxBiasCurrentMilliamps | LaneSkewPicoseconds | UnsupportedMetric

  datatype MetricState =
    | UnknownState | OkState | DegradedState | CriticalState | StaleState | ConflictingState
    | UnclassifiedState | FencedState

  datatype Direction = Above | Below

  datatype Threshold = Threshold(
    metric: Metric,
    lane: U16,
    direction: Direction,
    hasDegraded: bool,
    degradedEnter: real,
    degradedExit: real,
    hasCritical: bool,
    criticalEnter: real,
    criticalExit: real,
    escalateAfter: U32,
    recoverAfter: U32,
    maxAgeNs: int,
    disagreementTolerance: real,
    source: nat,
    epoch: nat,
    generation: nat,
    sequence: nat,
    provenance: Provenance,
    live: bool)

  datatype Latch = Latch(
    state: MetricState,
    consecutive: nat,
    lastSampleWallNs: int,
    lastSampleSequence: nat,
    lastTransitionGeneration: nat,
    lastTransitionWallNs: int)

  const EMPTY_LATCH := Latch(UnknownState, 0, 0, 0, 0, 0)
  const MODULE_LANE: U16 := 0xFFFF

  function PlausibleRange(metric: Metric): Option<(real, real)> {
    match metric
    case TemperatureCelsius => Some((-40.0, 150.0))
    case SupplyVoltageVolts => Some((0.0, 5.0))
    case TxPowerDbm => Some((-40.0, 20.0))
    case RxPowerDbm => Some((-40.0, 20.0))
    case TxBiasCurrentMilliamps => Some((0.0, 500.0))
    case LaneSkewPicoseconds => Some((0.0, 10000000.0))
    case _ => None
  }

  /** `exit` is no more severe than `enter`. */
  predicate Ordered(direction: Direction, exit: real, enter: real) {
    if direction == Above then exit <= enter else exit >= enter
  }

  function ValidateThreshold(t: Threshold): Result<()> {
    if PlausibleRange(t.metric) == None then Err(InvalidArgument)
    else if t.lane != MODULE_LANE && t.lane > 255 then Err(InvalidArgument)
    else if !t.hasDegraded && !t.hasCritical then Err(InvalidArgument)
    else if t.escalateAfter == 0 || t.recoverAfter == 0 then Err(InvalidArgument)
    else if t.maxAgeNs <= 0 then Err(InvalidArgument)
    else if t.disagreementTolerance < 0.0 then Err(InvalidArgument)
    else if t.hasDegraded && !Ordered(t.direction, t.degradedExit, t.degradedEnter) then Err(InvalidArgument)
    else if t.hasCritical && !Ordered(t.direction, t.criticalExit, t.criticalEnter) then Err(InvalidArgument)
    else if t.hasDegraded && t.hasCritical && !Ordered(t.direction, t.degradedEnter, t.criticalEnter) then
      Err(InvalidArgument)
    else Result.Ok(())
  }

  predicate Reaches(direction: Direction, value: real, bound: real) {
    if direction == Above then value >= bound else value <= bound
  }

  /** `classify_value`: entry bounds only. */
  function ClassifyValue(t: Threshold, value: real): MetricState {
    if t.hasCritical && Reaches(t.direction, value, t.criticalEnter) then CriticalState
    else if t.hasDegraded && Reaches(t.direction, value, t.degradedEnter) then DegradedState
    else OkState
  }

  /** The zone a sample falls into while the latch is in `state`: the current state's own band
      is left only past its exit bound. */
  function Zone(t: Threshold, state: MetricState, value: real): MetricState {
    var criticalBound := if state == CriticalState then t.criticalExit else t.criticalEnter;
    var degradedBound := if state == DegradedState then t.degradedExit else t.degradedEnter;
    if t.hasCritical && Reaches(t.direction, value, criticalBound) then CriticalState
    else if t.hasDegraded && Reaches(t.direction, value, degradedBound) then DegradedState
    else OkState
  }

  predicate IsHysteresisState(s: MetricState) {
    s == OkState || s == DegradedState || s == CriticalState
  }

  function ZoneRank(s: MetricState): nat {
    if s == CriticalState then 2 else if s == DegradedState then 1 else 0
  }

  function Enter(latch: Latch, zone: MetricState, wallNs: int, generation: nat): Latch {
    latch.(state := zone, consecutive := 0,
           lastTransitionGeneration := generation, lastTransitionWallNs := wallNs)
  }

  /** `advance_latch`. */
  function AdvanceLatch(t: Threshold, previous: Latch, value: real, wallNs: int, sequence: nat,
                        generation: nat): Latch {
    var zone := Zone(t, previous.state, value);
    var latch :=
      if !IsHysteresisState(previous.state) then Enter(previous, zone, wallNs, generation)
      else if zone == previous.state then previous.(consecutive := 0)
      else if ZoneRank(zone) > ZoneRank(previous.state) then
        if previous.consecutive + 1 >= t.escalateAfter then Enter(previous, zone, wallNs, generation)
        else previous.(consecutive := previous.consecutive + 1)
      else
        if previous.consecutive + 1 >= t.recoverAfter then Enter(previous, zone, wallNs, generation)
        else previous.(consecutive := previous.consecutive + 1);
    latch.(lastSampleWallNs := wallNs, lastSampleSequence := sequence)
  }

  // ----- runs of samples ----------------------------------------------------------------

  datatype Reading = Reading(value: real, wallNs: int, sequence: nat, generation: nat)

  /** The latch after a sequence of samples under one threshold. */
  function Run(t: Threshold, start: Latch, readings: seq<Reading>): Latch {
    if readings == [] then start
    else
      var r := readings[|readings| - 1];
      AdvanceLatch(t, Run(t, start, readings[..|readings| - 1]), r.value, r.wallNs, r.sequence, r.generation)
  }

  /** State changed (or was first established) by the last sample. */
  predicate Moved(t: Threshold, start: Latch, readings: seq<Reading>)
    requires readings != []
  {
    var before := Run(t, start, readings[..|readings| - 1]).state;
    !IsHysteresisState(before) || Run(t, start, readings).state != before
  }

  /** The samples after the last transition. */
  function SinceTransition(t: Threshold, start: Latch, readings: seq<Reading>): (s: seq<Reading>)
    ensures |s| <= |readings| && s == readings[|readings| - |s|..]
  {
    if readings == [] || Moved(t, start, readings) then []
    else SinceTransition(t, start, readings[..|readings| - 1]) + [readings[|readings| - 1]]
  }

  /** Length of the longest suffix whose samples all lie outside the zone of `state`. */
  function OutOfZoneTail(t: Threshold, state: MetricState, readings: seq<Reading>): nat {
    if readings == [] || Zone(t, state, readings[|readings| - 1].value) == state then 0
    else 1 + OutOfZoneTail(t, state, readings[..|readings| - 1])
  }

  function Max(a: nat, b: nat): nat {
    if a > b then a else b
  }

  lemma AdvanceFacts(t: Threshold, previous: Latch, r: Reading)
    requires t.escalateAfter > 0 && t.recoverAfter > 0
    ensures var next := AdvanceLatch(t, previous, r.value, r.wallNs, r.sequence, r.generation);
            && (IsHysteresisState(next.state))
            && (!IsHysteresisState(previous.state) || next.state != previous.state ==> next.consecutive == 0)
            && (IsHysteresisState(previous.state) && next.state == previous.state ==>
                  next.consecutive ==
                  if Zone(t, next.state, r.value) == next.state then 0 else previous.consecutive + 1)
            && (previous.consecutive < Max(t.escalateAfter, t.recoverAfter) ==>
                  next.consecutive < Max(t.escalateAfter, t.recoverAfter))
  {
  }

  /** For every run under a valid threshold the counter is exactly the length of the trailing
      out-of-zone run since the last transition, and stays below the larger of the two counts. */
  lemma {:induction false} ConsecutiveIsTrailingRun(t: Threshold, readings: seq<Reading>)
    requires ValidateThreshold(t).Ok?
    ensures var latch := Run(t, EMPTY_LATCH, readings);
            && latch.consecutive == OutOfZoneTail(t, latch.state, SinceTransition(t, EMPTY_LATCH, readings))
            && latch.consecutive < Max(t.escalateAfter, t.recoverAfter)
            && (readings == [] || IsHysteresisState(latch.state))
  {
    assert t.escalateAfter > 0 && t.recoverAfter > 0;
    hide *;
    if readings == [] {
      RunNone(t, EMPTY_LATCH);
    } else {
      var front, r := readings[..|readings| - 1], readings[|readings| - 1];
      assert readings == front + [r];
      ConsecutiveIsTrailingRun(t, front);
      RunLast(t, EMPTY_LATCH, front, r);
      AdvanceFacts(t, Run(t, EMPTY_LATCH, front), r);
      TailLast(t, Run(t, EMPTY_LATCH, readings).state, SinceTransition(t, EMPTY_LATCH, front), r);
    }
  }

  lemma RunNone(t: Threshold, start: Latch)
    requires t.escalateAfter > 0 && t.recoverAfter > 0
    ensures Run(t, start, []) == start && SinceTransition(t, start, []) == []
    ensures OutOfZoneTail(t, start.state, []) == 0 < Max(t.escalateAfter, t.recoverAfter)
    ensures EMPTY_LATCH.consecutive == 0
  {
  }

  lemma RunLast(t: Threshold, start: Latch, front: seq<Reading>, r: Reading)
    ensures Run(t, start, front + [r])
         == AdvanceLatch(t, Run(t, start, front), r.value, r.wallNs, r.sequence, r.generation)
    ensures SinceTransition(t, start, front + [r]) ==
            if IsHysteresisState(Run(t, start, front).state)
               && Run(t, start, front + [r]).state == Run(t, start, front).state
            then SinceTransition(t, start, front) + [r] else []
    ensures front == [] ==> Run(t, start, front) == start
  {
    assert (front + [r])[..|front|] == front;
    hide AdvanceLatch;
  }

  lemma TailLast(t: Threshold, state: MetricState, s: seq<Reading>, r: Reading)
    ensures OutOfZoneTail(t, state, s + [r])
         == if Zone(t, state, r.value) == state then 0 else 1 + OutOfZoneTail(t, state, s)
    ensures OutOfZoneTail(t, state, []) == 0
  {
    assert (s + [r])[..|s|] == s;
    hide Zone;
  }

  /** While the latch holds a state, a value between that state's exit and entry bounds keeps
      it and clears the counter. */
  lemma BetweenBoundsHolds(t: Threshold, latch: Latch, r: Reading)
    requires ValidateThreshold(t).Ok?
    requires (latch.state == CriticalState && t.hasCritical) || (latch.state == DegradedState && t.hasDegraded)
    requires var enter := if latch.state == CriticalState then t.criticalEnter else t.degradedEnter;
             var exit := if latch.state == CriticalState then t.criticalExit else t.degradedExit;
             Reaches(t.direction, r.value, exit) && !Reaches(t.direction, r.value, enter)
    ensures var next := AdvanceLatch(t, latch, r.value, r.wallNs, r.sequence, r.generation);
            next.state == latch.state && next.consecutive == 0
  {
  }

  predicate NoHysteresis(t: Threshold) {
    && t.escalateAfter == 1 && t.recoverAfter == 1
    && t.degradedExit == t.degradedEnter && t.criticalExit == t.criticalEnter
  }

  /** Without distinct exit bounds and with both counts one, the latch is the plain
      classification of the latest sample. */
  lemma {:induction false} NoHysteresisTracks(t: Threshold, readings: seq<Reading>)
    requires NoHysteresis(t) && readings != []
    ensures Run(t, EMPTY_LATCH, readings).state == ClassifyValue(t, readings[|readings| - 1].value)
    ensures Run(t, EMPTY_LATCH, readings).consecutive == 0
  {
    var front := readings[..|readings| - 1];
    if front != [] {
      NoHysteresisTracks(t, front);
    }
  }

  function Opposite(t: Threshold): Threshold {
    t.(direction := if t.direction == Above then Below else Above,
       degradedEnter := -t.degradedEnter, degradedExit := -t.degradedExit,
       criticalEnter := -t.criticalEnter, criticalExit := -t.criticalExit)
  }

  function Negated(readings: seq<Reading>): (s: seq<Reading>)
    ensures |s| == |readings|
  {
    seq(|readings|, i requires 0 <= i < |readings| => readings[i].(value := -readings[i].value))
  }

  lemma MirrorStep(t: Threshold, latch: Latch, r: Reading)
    ensures AdvanceLatch(Opposite(t), latch, -r.value, r.wallNs, r.sequence, r.generation)
         == AdvanceLatch(t, latch, r.value, r.wallNs, r.sequence, r.generation)
  {
    assert Zone(Opposite(t), latch.state, -r.value) == Zone(t, latch.state, r.value);
    hide Zone;
  }

  /** Below is the mirror image of Above: negating the bounds and the samples changes no latch. */
  lemma {:induction false} Mirror(t: Threshold, start: Latch, readings: seq<Reading>)
    ensures Run(Opposite(t), start, Negated(readings)) == Run(t, start, readings)
  {
    hide *;
    if readings == [] {
      MirrorNone(t, start);
    } else {
      var front, r := readings[..|readings| - 1], readings[|readings| - 1];
      Mirror(t, start, front);
      assert readings == front + [r];
      NegatedLast(front, r);
      RunLast(t, start, front, r);
      RunLast(Opposite(t), start, Negated(front), r.(value := -r.value));
      MirrorStep(t, Run(t, start, front), r);
    }
  }

  lemma MirrorNone(t: Threshold, start: Latch)
    ensures Run(Opposite(t), start, Negated([])) == Run(t, start, [])
  {
    assert Negated([]) == [];
  }

  lemma NegatedLast(front: seq<Reading>, r: Reading)
    ensures Negated(front + [r]) == Negated(front) + [r.(value := -r.value)]
  {
  }

  /** ... and no raw class and no verdict on the threshold either. */
  lemma MirrorClass(t: Threshold, value: real)
    ensures ClassifyValue(Opposite(t), -value) == ClassifyValue(t, value)
    ensures ValidateThreshold(Opposite(t)) == ValidateThreshold(t)
  {
  }

  /** Once a state is established, a sample moves the latch exactly when it lies outside the state's zone and completes
      the configured number of out-of-zone samples since the last transition; it then enters the sample's zone. */
  lemma TransitionExactly(t: Threshold, readings: seq<Reading>)
    requires ValidateThreshold(t).Ok? && |readings| > 1
    ensures var front := readings[..|readings| - 1];
            var before := Run(t, EMPTY_LATCH, front).state;
            var after := Run(t, EMPTY_LATCH, readings).state;
            var zone := Zone(t, before, readings[|readings| - 1].value);
            && (after != before <==>
                && zone != before
                && OutOfZoneTail(t, before, SinceTransition(t, EMPTY_LATCH, front)) + 1
                   >= (if ZoneRank(zone) > ZoneRank(before) then t.escalateAfter else t.recoverAfter))
            && (after != before ==> after == zone)
  {
    var front, r := readings[..|readings| - 1], readings[|readings| - 1];
    ConsecutiveIsTrailingRun(t, front);
    hide OutOfZoneTail, SinceTransition, Zone, ValidateThreshold;
    assert Run(t, EMPTY_LATCH, readings) ==
           AdvanceLatch(t, Run(t, EMPTY_LATCH, front), r.value, r.wallNs, r.sequence, r.generation);
  }
}
