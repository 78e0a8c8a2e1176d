/** What bands, zones and classifications mean, stated on bounds, stamps and values alone: src/health.cpp:36-440. */
module HealthMeaning {
  import opened Bytes
  import opened Ordering
  import opened Latch
  import opened Health

  // ----- Bands -----

  /** The entry bounds themselves count, and the critical band comes first. */
  lemma BandsExactly(t: Threshold, v: real)
    ensures var critical := t.hasCritical && (if t.direction
                                              == Above then v >= t.criticalEnter else v <= t.criticalEnter);
      var degraded := t.hasDegraded && (if t.direction == Above then v >= t.degradedEnter else v <= t.degradedEnter);
      && (ClassifyValue(t, v) == CriticalState <==> critical)
      && (ClassifyValue(t, v) == DegradedState <==> !critical && degraded)
      && (ClassifyValue(t, v) == OkState <==> !critical && !degraded)
  {
  }

  /**
   * The threshold a latch in this state goes by: its own band is left at the exit bound, the others entered as ever.
   */
  function HeldBy(t: Threshold, state: MetricState): Threshold {
    match state
    case CriticalState => t.(criticalEnter := t.criticalExit)
    case DegradedState => t.(degradedEnter := t.degradedExit)
    case _ => t
  }

  lemma ZoneIsClassification(t: Threshold, state: MetricState, v: real)
    ensures Zone(t, state, v) == ClassifyValue(HeldBy(t, state), v)
  {
  }

  function Rank(s: MetricState): nat {
    match s
    case CriticalState => 2
    case DegradedState => 1
    case _ => 0
  }

  /** Worse values are never classified better, whatever state the latch is in. */
  lemma SeverityIsMonotone(t: Threshold, state: MetricState, v: real, w: real)
    requires if t.direction == Above then v <= w else v >= w
    ensures Rank(ClassifyValue(t, v)) <= Rank(ClassifyValue(t, w))
    ensures Rank(Zone(t, state, v)) <= Rank(Zone(t, state, w))
  {
  }

  /** Under an accepted threshold a value that enters a state also holds it: the latch does not flap. */
  lemma EnteringHolds(t: Threshold, v: real)
    requires ValidateThreshold(t).Ok?
    ensures Zone(t, ClassifyValue(t, v), v) == ClassifyValue(t, v)
    ensures forall state :: IsHysteresisState(state) && Rank(state) <= Rank(ClassifyValue(t, v)) ==>
              Rank(ClassifyValue(t, v)) <= Rank(Zone(t, state, v))
  {
  }

  /** An accepted threshold: a modelled metric, a lane, some band, counts, an age, a tolerance, and nested bounds. */
  lemma AcceptedExactly(t: Threshold)
    ensures var above := t.direction == Above;
      ValidateThreshold(t).Ok? <==>
        && PlausibleRange(t.metric).Some? && (t.lane <= 255 || t.lane == MODULE_LANE)
           && (t.hasDegraded || t.hasCritical)
        && t.escalateAfter >= 1 && t.recoverAfter >= 1 && t.maxAgeNs > 0 && t.disagreementTolerance >= 0.0
        && (t.hasDegraded ==>
              if above then t.degradedExit <= t.degradedEnter else t.degradedEnter <= t.degradedExit)
        && (t.hasCritical ==>
              if above then t.criticalExit <= t.criticalEnter else t.criticalEnter <= t.criticalExit)
        && (t.hasDegraded && t.hasCritical ==>
              if above then t.degradedEnter <= t.criticalEnter else t.criticalEnter <= t.degradedEnter)
  {
  }

  /** A lane's own threshold, else the module-wide one, else none. */
  lemma SelectedExactly(ts: seq<Threshold>, metric: Metric, lane: U16)
    ensures var own := (t: Threshold) => t in ts && t.live && t.metric == metric && t.lane == lane;
      var wide := (t: Threshold) => t in ts && t.live && t.metric == metric && t.lane == MODULE_LANE;
      match SelectedThreshold(ts, metric, lane)
      case Some(t) => own(t) || (wide(t) && forall u :: !own(u))
      case None => forall u :: !own(u) && !wide(u)
  {
    hide LastFor;
    LastForExact(ts, metric, lane);
    LastForExact(ts, metric, MODULE_LANE);
  }

  // ----- The newest sample of every source -----

  predicate InSequence(samples: seq<HealthSample>) {
    forall i, j :: 0 <= i < j < |samples| ==> samples[i].sequence < samples[j].sequence
  }

  /** The module's own evidence, of its incarnation and of a live source. */
  predicate Counts(s: HealthSample, uid: nat, incarnation: nat) {
    s.moduleUid == uid && s.incarnation == incarnation && s.live
  }

  /** Later by wall clock; of equally late ones the one ingested later. */
  predicate NotLater(o: HealthSample, s: HealthSample) {
    o.wallNs < s.wallNs || (o.wallNs == s.wallNs && o.sequence <= s.sequence)
  }

  ghost predicate Speaks(samples: seq<HealthSample>, uid: nat, incarnation: nat, s: HealthSample) {
    && s in samples && Counts(s, uid, incarnation)
    && forall o :: o in samples && Counts(o, uid, incarnation) && o.source == s.source ==> NotLater(o, s)
  }

  lemma LastIsLatest(front: seq<HealthSample>, x: HealthSample, o: HealthSample)
    requires InSequence(front + [x]) && o in front
    ensures o.sequence < x.sequence
  {
    var i :| 0 <= i < |front| && front[i] == o;
    assert (front + [x])[i] == o && (front + [x])[|front|] == x;
  }

  /** One more sample: it speaks for its source unless an earlier one was observed later. */
  lemma SpeaksNext(front: seq<HealthSample>, x: HealthSample, uid: nat, incarnation: nat, s: HealthSample)
    requires InSequence(front + [x]) && Speaks(front, uid, incarnation, s)
    ensures !Counts(x, uid, incarnation) || x.source != s.source || s.wallNs > x.wallNs ==>
            Speaks(front + [x], uid, incarnation, s)
    ensures Counts(x, uid, incarnation) && x.source == s.source && s.wallNs <= x.wallNs ==>
            Speaks(front + [x], uid, incarnation, x)
  {
    hide InSequence;
    forall o | o in front && Counts(o, uid, incarnation) && o.source == s.source ensures o.sequence < x.sequence {
      LastIsLatest(front, x, o);
    }
  }

  lemma SpeaksFirst(front: seq<HealthSample>, x: HealthSample, uid: nat, incarnation: nat)
    requires Counts(x, uid, incarnation)
    requires forall o :: o in front && Counts(o, uid, incarnation) ==> o.source != x.source
    ensures Speaks(front + [x], uid, incarnation, x)
  {
  }

  lemma FrontInSequence(front: seq<HealthSample>, x: HealthSample)
    requires InSequence(front + [x])
    ensures InSequence(front)
  {
    forall i, j | 0 <= i < j < |front| ensures front[i].sequence < front[j].sequence {
      assert (front + [x])[i] == front[i] && (front + [x])[j] == front[j];
    }
  }

  lemma {:induction false} NewestSpeaks(samples: seq<HealthSample>, uid: nat, incarnation: nat)
    requires InSequence(samples)
    ensures var newest := NewestBySource(samples, uid, incarnation);
      && (forall k :: k in newest ==> newest[k].source == k)
      && (forall k :: k in newest ==> Speaks(samples, uid, incarnation, newest[k]))
      && (forall s :: s in samples && Counts(s, uid, incarnation) ==> s.source in newest)
  {
    if samples != [] {
      var front, x := samples[..|samples| - 1], samples[|samples| - 1];
      assert samples == front + [x];
      FrontInSequence(front, x);
      NewestSpeaks(front, uid, incarnation);
      var before, newest := NewestBySource(front, uid, incarnation), NewestBySource(samples, uid, incarnation);
      assert newest == if Counts(x, uid, incarnation) && (x.source in before ==> before[x.source].wallNs <= x.wallNs)
                       then before[x.source := x] else before;
      hide NewestBySource, InSequence, Speaks, Counts;
      if Counts(x, uid, incarnation) && x.source !in before {
        SpeaksFirst(front, x, uid, incarnation);
      }
      forall k | k in newest ensures newest[k].source == k && Speaks(samples, uid, incarnation, newest[k]) {
        if k in before {
          SpeaksNext(front, x, uid, incarnation, before[k]);
        }
      }
    }
  }

  /** Two that speak for one source are one. */
  lemma OneVoice(samples: seq<HealthSample>, uid: nat, incarnation: nat, a: HealthSample, b: HealthSample)
    requires InSequence(samples) && Speaks(samples, uid, incarnation, a) && Speaks(samples, uid, incarnation, b)
    requires a.source == b.source
    ensures a == b
  {
    var i :| 0 <= i < |samples| && samples[i] == a;
    var j :| 0 <= j < |samples| && samples[j] == b;
  }

  predicate SourcesAscend(list: seq<HealthSample>) {
    forall i, j :: 0 <= i < j < |list| ==> list[i].source < list[j].source
  }

  lemma ListedInOrder(newest: map<nat, HealthSample>, keys: seq<nat>)
    requires forall k :: k in keys ==> k in newest && newest[k].source == k
    requires forall i, j :: 0 <= i < j < |keys| ==> keys[i] < keys[j]
    ensures SourcesAscend(Listed(newest, keys))
  {
    var list := Listed(newest, keys);
    forall i, j | 0 <= i < j < |list| ensures list[i].source < list[j].source {
      assert keys[i] in keys && keys[j] in keys;
    }
  }

  lemma ListedMembers(newest: map<nat, HealthSample>, keys: seq<nat>, s: HealthSample)
    requires forall k :: k in keys ==> k in newest && newest[k].source == k
    ensures s in Listed(newest, keys) <==> s.source in keys && newest[s.source] == s
  {
    var list := Listed(newest, keys);
    if s in list {
      var i :| 0 <= i < |list| && list[i] == s;
      assert keys[i] in keys;
    }
    if s.source in keys && newest[s.source] == s {
      var i :| 0 <= i < |keys| && keys[i] == s.source;
      assert list[i] == s;
    }
  }

  lemma ListedAscends(newest: map<nat, HealthSample>, s: HealthSample)
    requires forall k :: k in newest ==> newest[k].source == k
    ensures var list := Listed(newest, Ascending(newest.Keys));
      && (s in list <==> s.source in newest && newest[s.source] == s)
      && SourcesAscend(list)
  {
    hide Ascending, Listed, SourcesAscend;
    AscendingExactly(newest.Keys);
    ListedInOrder(newest, Ascending(newest.Keys));
    ListedMembers(newest, Ascending(newest.Keys), s);
  }

  /** The list a classification goes over: exactly the samples that speak for their sources, each source once. */
  lemma NewestExactly(samples: seq<HealthSample>, uid: nat, incarnation: nat)
    requires InSequence(samples)
    ensures var list := Newest(samples, uid, incarnation);
      && (forall s :: s in list <==> Speaks(samples, uid, incarnation, s))
      && SourcesAscend(list)
  {
    hide Speaks, Counts, Ascending, NewestBySource, InSequence, Listed;
    var newest := NewestBySource(samples, uid, incarnation);
    NewestSpeaks(samples, uid, incarnation);
    assert newest == NewestBySource(samples, uid, incarnation);
    assert forall k :: k in newest ==> newest[k].source == k;
    forall s
      ensures s in Listed(newest, Ascending(newest.Keys)) <==> Speaks(samples, uid, incarnation, s)
    {
      ListedAscends(newest, s);
      if Speaks(samples, uid, incarnation, s) {
        SpeakerIsListed(samples, uid, incarnation, s);
        OneVoice(samples, uid, incarnation, s, newest[s.source]);
      }
    }
    if Newest(samples, uid, incarnation) != [] {
      ListedAscends(newest, Newest(samples, uid, incarnation)[0]);
    }
  }

  lemma SpeakerIsListed(samples: seq<HealthSample>, uid: nat, incarnation: nat, s: HealthSample)
    requires Speaks(samples, uid, incarnation, s)
    ensures s in samples && Counts(s, uid, incarnation)
  {
  }

  lemma AscendingExactly(keys: set<nat>)
    ensures forall k :: k in Ascending(keys) <==> k in keys
    ensures forall i, j :: 0 <= i < j < |Ascending(keys)| ==> Ascending(keys)[i] < Ascending(keys)[j]
  {
  }

  // ----- Classification -----

  /** Measured, not from the future, and no older than the bound. */
  predicate Usable(s: HealthSample, t: Threshold, now: int, skewNs: int) {
    s.presence == Present && s.wallNs <= now + skewNs && now - s.wallNs <= t.maxAgeNs && 0 <= t.maxAgeNs
  }

  /** A sample that speaks for its source and can be used. */
  ghost predicate Heard(samples: seq<HealthSample>, t: Threshold, uid: nat, incarnation: nat, now: int, skewNs: int,
                        s: HealthSample)
  {
    Speaks(samples, uid, incarnation, s) && Usable(s, t, now, skewNs)
  }

  lemma HeardExactly(samples: seq<HealthSample>, t: Threshold, uid: nat, incarnation: nat, now: int, skewNs: int)
    requires InSequence(samples)
    ensures var usable := FreshOf(Newest(samples, uid, incarnation), t, now, skewNs);
      && (forall s :: s in usable <==> Heard(samples, t, uid, incarnation, now, skewNs, s))
      && (usable != [] <==> exists s :: Heard(samples, t, uid, incarnation, now, skewNs, s))
  {
    hide Speaks, Newest, FreshOf, InSequence;
    NewestExactly(samples, uid, incarnation);
    var usable := FreshOf(Newest(samples, uid, incarnation), t, now, skewNs);
    if usable != [] {
      assert usable[0] in usable;
    }
  }

  lemma {:induction false} FreshApart(list: seq<HealthSample>, t: Threshold, now: int, skewNs: int)
    requires SourcesAscend(list)
    ensures SourcesAscend(FreshOf(list, t, now, skewNs))
  {
    hide Fresh;
    if list != [] {
      var front, x := list[..|list| - 1], list[|list| - 1];
      FreshApart(front, t, now, skewNs);
      var before := FreshOf(front, t, now, skewNs);
      forall i | 0 <= i < |before| ensures before[i].source < x.source {
        assert before[i] in front;
        var j :| 0 <= j < |front| && front[j] == before[i];
        assert list[j] == before[i];
      }
      assert FreshOf(list, t, now, skewNs) == if Fresh(x, t, now, skewNs) then before + [x] else before;
    }
  }

  /** Two usable sources disagree beyond the published tolerance. */
  ghost predicate Disagree(samples: seq<HealthSample>, t: Threshold, uid: nat, incarnation: nat, now: int,
                           skewNs: int) {
    exists a, b :: Heard(samples, t, uid, incarnation, now, skewNs, a)
      && Heard(samples, t, uid, incarnation, now, skewNs, b)
                   && a.source != b.source && a.value - b.value > t.disagreementTolerance
  }

  /** Some source was measured, but what speaks for it cannot be used any more. */
  ghost predicate AgedOnly(samples: seq<HealthSample>, uid: nat, incarnation: nat) {
    exists s :: Speaks(samples, uid, incarnation, s) && s.presence == Present
  }

  lemma SpreadExactly(list: seq<HealthSample>, tolerance: real)
    requires list != [] && SourcesAscend(list)
    ensures |list| > 1 && Highest(list) - Lowest(list) > tolerance <==>
            exists a, b :: a in list && b in list && a.source != b.source && a.value - b.value > tolerance
  {
    var highest, lowest := Highest(list), Lowest(list);
    var high :| high in list && high.value == highest;
    var low :| low in list && low.value == lowest;
    hide Highest, Lowest;
    if |list| > 1 && Highest(list) - Lowest(list) > tolerance && high.source == low.source {
      var i :| 0 <= i < |list| && list[i] == high;
      var j :| 0 <= j < |list| && list[j] == low;
      var other := list[if i == 0 then 1 else 0];
      assert other in list && other.source != high.source;
      assert high.value - other.value > tolerance;
    }
  }

  lemma SomeMember<T>(s: seq<T>)
    ensures s != [] ==> exists x :: x in s
  {
    if s != [] {
      assert s[0] in s;
    }
  }

  ghost predicate HasFenced(samples: seq<HealthSample>, uid: nat, incarnation: nat) {
    exists s :: s in samples && s.moduleUid == uid && !Counts(s, uid, incarnation)
  }

  lemma {:induction false} FencedExactly(samples: seq<HealthSample>, uid: nat, incarnation: nat)
    ensures FencedCount(samples, uid, incarnation) > 0 <==> HasFenced(samples, uid, incarnation)
  {
    if samples != [] {
      var front, x := samples[..|samples| - 1], samples[|samples| - 1];
      assert samples == front + [x];
      FencedExactly(front, uid, incarnation);
    }
  }

  /** Nobody speaks: the series is fenced or unknown. */
  lemma SilenceExactly(samples: seq<HealthSample>, threshold: Option<Threshold>, uid: nat, incarnation: nat, now: int,
                       skewNs: int)
    requires InSequence(samples) && forall s :: !Speaks(samples, uid, incarnation, s)
    ensures Classify(samples, threshold, uid, incarnation, now, skewNs).state ==
            if HasFenced(samples, uid, incarnation) then FencedState else UnknownState
  {
    hide Speaks, Newest, FencedCount, HasFenced, Judged, Unjudged, InSequence;
    NewestExactly(samples, uid, incarnation);
    FencedExactly(samples, uid, incarnation);
    SomeMember(Newest(samples, uid, incarnation));
  }

  /**
   * A series with a threshold, in full: whether two usable sources disagree, which reading is judged and how, when
   * nothing is usable but something was measured, and when nothing was.
   */
  lemma JudgedExactly(samples: seq<HealthSample>, t: Threshold, uid: nat, incarnation: nat, now: int, skewNs: int)
    requires InSequence(samples) && exists s :: Speaks(samples, uid, incarnation, s)
    ensures var c := Classify(samples, Some(t), uid, incarnation, now, skewNs);
      var heard := exists s :: Heard(samples, t, uid, incarnation, now, skewNs, s);
      && (c.state == ConflictingState <==> Disagree(samples, t, uid, incarnation, now, skewNs))
      && (IsHysteresisState(c.state) <==> heard && !Disagree(samples, t, uid, incarnation, now, skewNs))
      && (c.state == StaleState <==> !heard && AgedOnly(samples, uid, incarnation))
      && (c.state == UnknownState <==> !heard && !AgedOnly(samples, uid, incarnation))
      && (heard ==> exists s :: LatestHeard(samples, t, uid, incarnation, now, skewNs, s)
                      && c.reading == Some((s.value, if now > s.wallNs then now - s.wallNs else 0))
                      && (IsHysteresisState(c.state) ==> c.state == ClassifyValue(t, s.value)))
  {
    hide Speaks, Newest, FencedCount, FreshOf, Latest, Highest, Lowest, AgedCount, FirstUnusable, FutureSeen,
         InSequence, ClassifyValue, Fresh, AgedOut, Usable, Heard;
    var list := Newest(samples, uid, incarnation);
    NewestExactly(samples, uid, incarnation);
    HeardExactly(samples, t, uid, incarnation, now, skewNs);
    FreshApart(list, t, now, skewNs);
    var usable := FreshOf(list, t, now, skewNs);
    assert list != [] by {
      var s :| Speaks(samples, uid, incarnation, s);
      assert s in list;
    }
    if usable == [] {
      AgedExactly(samples, t, uid, incarnation, now, skewNs);
      NobodyDisagrees(samples, t, uid, incarnation, now, skewNs);
    } else {
      DisagreeExactly(samples, t, uid, incarnation, now, skewNs, usable);
      var s := Latest(usable);
      BandsExactly(t, s.value);
      assert LatestHeard(samples, t, uid, incarnation, now, skewNs, s);
    }
  }

  /** Of the usable samples one that no other was observed after. */
  ghost predicate LatestHeard(samples: seq<HealthSample>, t: Threshold, uid: nat, incarnation: nat, now: int,
                              skewNs: int, s: HealthSample)
  {
    && Heard(samples, t, uid, incarnation, now, skewNs, s)
    && forall o :: Heard(samples, t, uid, incarnation, now, skewNs, o) ==> o.wallNs <= s.wallNs
  }

  lemma NobodyDisagrees(samples: seq<HealthSample>, t: Threshold, uid: nat, incarnation: nat, now: int, skewNs: int)
    requires forall s :: !Heard(samples, t, uid, incarnation, now, skewNs, s)
    ensures !Disagree(samples, t, uid, incarnation, now, skewNs)
  {
    hide Heard;
  }

  lemma AgedExactly(samples: seq<HealthSample>, t: Threshold, uid: nat, incarnation: nat, now: int, skewNs: int)
    requires InSequence(samples) && FreshOf(Newest(samples, uid, incarnation), t, now, skewNs) == []
    ensures AgedCount(Newest(samples, uid, incarnation), t, now, skewNs) > 0 <==> AgedOnly(samples, uid, incarnation)
  {
    hide Speaks, Newest, FreshOf, AgedCount, InSequence;
    NewestExactly(samples, uid, incarnation);
    var list := Newest(samples, uid, incarnation);
    forall s | s in list && s.presence == Present ensures AgedOut(s, t, now, skewNs) {
      assert s !in FreshOf(list, t, now, skewNs);
    }
  }

  lemma DisagreeExactly(samples: seq<HealthSample>, t: Threshold, uid: nat, incarnation: nat, now: int, skewNs: int,
                        usable: seq<HealthSample>)
    requires usable != [] && SourcesAscend(usable)
    requires forall s :: s in usable <==> Heard(samples, t, uid, incarnation, now, skewNs, s)
    ensures Disagree(samples, t, uid, incarnation, now, skewNs) <==>
            |usable| > 1 && Highest(usable) - Lowest(usable) > t.disagreementTolerance
  {
    hide Heard, Highest, Lowest, SourcesAscend;
    SpreadExactly(usable, t.disagreementTolerance);
    if a, b :| a in usable && b in usable && a.source != b.source && a.value - b.value > t.disagreementTolerance {
      assert Heard(samples, t, uid, incarnation, now, skewNs, a) && Heard(samples, t, uid, incarnation, now, skewNs, b);
    }
  }

  /** Without a threshold nothing is judged: the latest measured reading is shown, or nothing is known. */
  lemma UnjudgedExactly(samples: seq<HealthSample>, uid: nat, incarnation: nat, now: int, skewNs: int)
    requires InSequence(samples) && exists s :: Speaks(samples, uid, incarnation, s)
    ensures var c := Classify(samples, None, uid, incarnation, now, skewNs);
      && (c.state == UnclassifiedState <==> AgedOnly(samples, uid, incarnation))
      && (c.state == UnknownState <==> !AgedOnly(samples, uid, incarnation))
  {
    hide Speaks, Newest, FencedCount, PresentOf, Latest, InSequence;
    NewestExactly(samples, uid, incarnation);
    var list := Newest(samples, uid, incarnation);
    assert list != [] by {
      var s :| Speaks(samples, uid, incarnation, s);
      assert s in list;
    }
    var present := PresentOf(list);
    if present != [] {
      assert present[0] in present;
    }
  }
}
