/** Evidence-gated series classification of src/health.cpp. */
module Health {
  import opened Bytes
  import opened Provenances
  import opened Ordering
  import opened Latch

  datatype Presence = Present | NotAvailable | ReadError | NotSupported

  datatype HealthSample = HealthSample(
    metric: Metric,
    lane: U16,
    presence: Presence,
    value: real,
    wallNs: int,
    monotonicNs: nat,
    clockDomain: nat,
    source: nat,
    epoch: nat,
    moduleUid: nat,
    incarnation: nat,
    generation: nat,
    sequence: nat,
    provenance: Provenance,
    live: bool)

  datatype IssueKind =
    | Missing | StaleIssue | FencedIssue | SourceConflict | NoThreshold
    | NotAvailableIssue | ReadErrorIssue | NotSupportedIssue | FutureTimestamp

  /** `SeriesClassification`, without its rendered reason. */
  datatype Classification = Classification(
    state: MetricState,
    reason: IssueKind,
    reading: Option<(real, int)>,
    freshCount: nat,
    staleCount: nat,
    fencedCount: nat,
    sourceCount: nat)

  // ----- threshold selection -------------------------------------------------------------

  function LastFor(ts: seq<Threshold>, metric: Metric, lane: U16): Option<Threshold> {
    if ts == [] then None
    else
      var t := ts[|ts| - 1];
      if t.live && t.metric == metric && t.lane == lane then Some(t) else LastFor(ts[..|ts| - 1], metric, lane)
  }

  /** A lane-specific threshold wins over a module-wide one; the last of each counts. */
  function SelectedThreshold(ts: seq<Threshold>, metric: Metric, lane: U16): Option<Threshold> {
    var specific := LastFor(ts, metric, lane);
    if specific.Some? then specific else LastFor(ts, metric, MODULE_LANE)
  }

  lemma {:induction false} LastForExact(ts: seq<Threshold>, metric: Metric, lane: U16)
    ensures match LastFor(ts, metric, lane)
            case Some(t) => t in ts && t.live && t.metric == metric && t.lane == lane
            case None => forall t :: t in ts ==> !(t.live && t.metric == metric && t.lane == lane)
  {
    if ts != [] {
      LastForExact(ts[..|ts| - 1], metric, lane);
      assert ts == ts[..|ts| - 1] + [ts[|ts| - 1]];
    }
  }

  /** src/health.cpp `select_threshold`. */
  method SelectThreshold(ts: seq<Threshold>, metric: Metric, lane: U16) returns (r: Option<Threshold>)
    ensures r == SelectedThreshold(ts, metric, lane)
  {
    var moduleWide, laneSpecific := None, None;
    for i := 0 to |ts|
      invariant laneSpecific == LastFor(ts[..i], metric, lane)
      invariant lane != MODULE_LANE ==> moduleWide == LastFor(ts[..i], metric, MODULE_LANE)
      invariant lane == MODULE_LANE ==> moduleWide == None
    {
      assert ts[..i + 1][..i] == ts[..i];
      var t := ts[i];
      if t.live && t.metric == metric {
        if t.lane == lane {
          laneSpecific := Some(t);
        } else if t.lane == MODULE_LANE {
          moduleWide := Some(t);
        }
      }
    }
    assert ts[..|ts|] == ts;
    r := if laneSpecific.Some? then laneSpecific else moduleWide;
  }

  // ----- the newest live sample of every source ------------------------------------------

  predicate Eligible(s: HealthSample, uid: nat, incarnation: nat) {
    s.moduleUid == uid && s.incarnation == incarnation && s.live
  }

  function NewestBySource(samples: seq<HealthSample>, uid: nat, incarnation: nat): map<nat, HealthSample> {
    if samples == [] then map[]
    else
      var newest := NewestBySource(samples[..|samples| - 1], uid, incarnation);
      var s := samples[|samples| - 1];
      if Eligible(s, uid, incarnation) && (s.source in newest ==> newest[s.source].wallNs <= s.wallNs)
      then newest[s.source := s] else newest
  }

  function FencedCount(samples: seq<HealthSample>, uid: nat, incarnation: nat): nat {
    if samples == [] then 0
    else
      var s := samples[|samples| - 1];
      FencedCount(samples[..|samples| - 1], uid, incarnation)
      + if s.moduleUid == uid && !Eligible(s, uid, incarnation) then 1 else 0
  }

  /** What the map holds: for every source with an eligible sample the newest of them. */
  lemma {:induction false} NewestExact(samples: seq<HealthSample>, uid: nat, incarnation: nat)
    ensures var newest := NewestBySource(samples, uid, incarnation);
            && (forall k :: k in newest ==>
                  newest[k] in samples && newest[k].source == k && Eligible(newest[k], uid, incarnation))
            && (forall s :: s in samples && Eligible(s, uid, incarnation) ==>
                  s.source in newest && s.wallNs <= newest[s.source].wallNs)
  {
    if samples != [] {
      NewestExact(samples[..|samples| - 1], uid, incarnation);
      assert samples == samples[..|samples| - 1] + [samples[|samples| - 1]];
    }
  }

  function Listed(newest: map<nat, HealthSample>, keys: seq<nat>): (s: seq<HealthSample>)
    requires forall k :: k in keys ==> k in newest
    ensures |s| == |keys| && forall i :: 0 <= i < |s| ==> s[i] == newest[keys[i]]
  {
    if keys == [] then [] else [newest[keys[0]]] + Listed(newest, keys[1..])
  }

  /** The samples the classification loops over, in ascending source order. */
  function Newest(samples: seq<HealthSample>, uid: nat, incarnation: nat): (s: seq<HealthSample>)
    ensures |s| == |NewestBySource(samples, uid, incarnation)|
  {
    var newest := NewestBySource(samples, uid, incarnation);
    Listed(newest, Ascending(newest.Keys))
  }

  lemma NewestMembers(samples: seq<HealthSample>, uid: nat, incarnation: nat, s: HealthSample)
    requires s in Newest(samples, uid, incarnation)
    ensures s in samples && Eligible(s, uid, incarnation)
    ensures forall o :: o in samples && Eligible(o, uid, incarnation) && o.source == s.source ==> o.wallNs <= s.wallNs
  {
    hide NewestBySource, Ascending;
    NewestExact(samples, uid, incarnation);
  }

  // ----- freshness -----------------------------------------------------------------------

  function Age(now: int, observed: int): int {
    if now > observed then now - observed else 0
  }

  predicate FromFuture(s: HealthSample, now: int, skewNs: int) {
    s.wallNs > now + skewNs
  }

  predicate AgedOut(s: HealthSample, t: Threshold, now: int, skewNs: int) {
    s.presence == Present && (FromFuture(s, now, skewNs) || Age(now, s.wallNs) > t.maxAgeNs)
  }

  predicate Fresh(s: HealthSample, t: Threshold, now: int, skewNs: int) {
    s.presence == Present && !FromFuture(s, now, skewNs) && Age(now, s.wallNs) <= t.maxAgeNs
  }

  function FreshOf(list: seq<HealthSample>, t: Threshold, now: int, skewNs: int): (r: seq<HealthSample>)
    ensures forall s :: s in r <==> s in list && Fresh(s, t, now, skewNs)
    ensures |r| <= |list|
  {
    if list == [] then []
    else
      var front := FreshOf(list[..|list| - 1], t, now, skewNs);
      var s := list[|list| - 1];
      assert list == list[..|list| - 1] + [s];
      if Fresh(s, t, now, skewNs) then front + [s] else front
  }

  function AgedCount(list: seq<HealthSample>, t: Threshold, now: int, skewNs: int): (n: nat)
    ensures n > 0 <==> exists s :: s in list && AgedOut(s, t, now, skewNs)
  {
    if list == [] then 0
    else
      var s := list[|list| - 1];
      assert list == list[..|list| - 1] + [s];
      AgedCount(list[..|list| - 1], t, now, skewNs) + if AgedOut(s, t, now, skewNs) then 1 else 0
  }

  function FutureSeen(list: seq<HealthSample>, now: int, skewNs: int): bool {
    exists s :: s in list && s.presence == Present && FromFuture(s, now, skewNs)
  }

  function PresenceIssue(p: Presence): IssueKind {
    match p
    case Present => Missing
    case NotAvailable => NotAvailableIssue
    case ReadError => ReadErrorIssue
    case NotSupported => NotSupportedIssue
  }

  function UnusableKind(s: HealthSample, now: int, skewNs: int): IssueKind {
    if s.presence != Present then PresenceIssue(s.presence)
    else if FromFuture(s, now, skewNs) then FutureTimestamp
    else StaleIssue
  }

  /** The issue of the first source, in order, whose newest sample cannot be used. */
  function FirstUnusable(list: seq<HealthSample>, t: Threshold, now: int, skewNs: int): Option<IssueKind> {
    if list == [] then None
    else
      var front := FirstUnusable(list[..|list| - 1], t, now, skewNs);
      var s := list[|list| - 1];
      if front.Some? || Fresh(s, t, now, skewNs) then front else Some(UnusableKind(s, now, skewNs))
  }

  /** The latest sample by wall clock; of equally late ones the last. */
  function Latest(list: seq<HealthSample>): (s: HealthSample)
    requires list != []
    ensures s in list && forall o :: o in list ==> o.wallNs <= s.wallNs
  {
    var last := list[|list| - 1];
    if |list| == 1 then last
    else
      var front := Latest(list[..|list| - 1]);
      assert list == list[..|list| - 1] + [last];
      if front.wallNs <= last.wallNs then last else front
  }

  function PresentOf(list: seq<HealthSample>): (r: seq<HealthSample>)
    ensures forall s :: s in r <==> s in list && s.presence == Present
  {
    if list == [] then []
    else
      var front := PresentOf(list[..|list| - 1]);
      var s := list[|list| - 1];
      assert list == list[..|list| - 1] + [s];
      if s.presence == Present then front + [s] else front
  }

  function Lowest(list: seq<HealthSample>): (v: real)
    requires list != []
    ensures (exists s :: s in list && s.value == v) && forall s :: s in list ==> v <= s.value
  {
    var last := list[|list| - 1];
    assert last in list;
    if |list| == 1 then last.value
    else
      var front := Lowest(list[..|list| - 1]);
      assert list == list[..|list| - 1] + [last];
      if last.value < front then last.value else front
  }

  function Highest(list: seq<HealthSample>): (v: real)
    requires list != []
    ensures (exists s :: s in list && s.value == v) && forall s :: s in list ==> s.value <= v
  {
    var last := list[|list| - 1];
    assert last in list;
    if |list| == 1 then last.value
    else
      var front := Highest(list[..|list| - 1]);
      assert list == list[..|list| - 1] + [last];
      if front < last.value then last.value else front
  }

  function ReadingOf(s: HealthSample, now: int): Option<(real, int)> {
    Some((s.value, Age(now, s.wallNs)))
  }

  // ----- classification ------------------------------------------------------------------

  /** No threshold published: the value is shown, never judged. */
  function Unjudged(list: seq<HealthSample>, fenced: nat, now: int): Classification {
    var present := PresentOf(list);
    if present == [] then Classification(UnknownState, NotAvailableIssue, None, 0, 0, fenced, |list|)
    else Classification(UnclassifiedState, NoThreshold, ReadingOf(Latest(present), now), 0, 0, fenced, |list|)
  }

  function Judged(list: seq<HealthSample>, fenced: nat, t: Threshold, now: int, skewNs: int): Classification {
    var usable := FreshOf(list, t, now, skewNs);
    var base := Classification(UnknownState, Missing, None, |usable|, |list| - |usable|, fenced, |list|);
    var issue := FirstUnusable(list, t, now, skewNs);
    if usable == [] then
      if AgedCount(list, t, now, skewNs) > 0 then
        base.(state := StaleState, reason := if FutureSeen(list, now, skewNs) then FutureTimestamp else StaleIssue)
      else base.(reason := if issue.Some? then issue.value else Missing)
    else
      var read := base.(reading := ReadingOf(Latest(usable), now));
      if |usable| > 1 && Highest(usable) - Lowest(usable) > t.disagreementTolerance then
        read.(state := ConflictingState, reason := SourceConflict)
      else read.(state := ClassifyValue(t, Latest(usable).value))
  }

  /** What `classify_series` answers. */
  function Classify(samples: seq<HealthSample>, threshold: Option<Threshold>, uid: nat, incarnation: nat,
                    now: int, skewNs: int): Classification
  {
    var list := Newest(samples, uid, incarnation);
    var fenced := FencedCount(samples, uid, incarnation);
    if list == [] then
      Classification(if fenced > 0 then FencedState else UnknownState,
                     if fenced > 0 then FencedIssue else Missing, None, 0, 0, fenced, 0)
    else match threshold
      case None => Unjudged(list, fenced, now)
      case Some(t) => Judged(list, fenced, t, now, skewNs)
  }

  /** src/health.cpp `classify_series`, first loop: the newest sample of every source. */
  method CollectNewest(samples: seq<HealthSample>, uid: nat, incarnation: nat)
    returns (newest: map<nat, HealthSample>, fenced: nat)
    ensures newest == NewestBySource(samples, uid, incarnation)
    ensures fenced == FencedCount(samples, uid, incarnation)
  {
    newest, fenced := map[], 0;
    for i := 0 to |samples|
      invariant newest == NewestBySource(samples[..i], uid, incarnation)
      invariant fenced == FencedCount(samples[..i], uid, incarnation)
    {
      assert samples[..i + 1][..i] == samples[..i];
      var s := samples[i];
      if s.moduleUid == uid {
        if s.incarnation != incarnation || !s.live {
          fenced := fenced + 1;
        } else if s.source !in newest || newest[s.source].wallNs <= s.wallNs {
          newest := newest[s.source := s];
        }
      }
    }
    assert samples[..|samples|] == samples;
  }

  lemma PresentNone()
    ensures PresentOf([]) == []
  {
  }

  lemma PresentLast(front: seq<HealthSample>, s: HealthSample)
    ensures PresentOf(front + [s]) == if s.presence == Present then PresentOf(front) + [s] else PresentOf(front)
  {
    assert (front + [s])[..|front|] == front;
  }

  lemma LatestLast(front: seq<HealthSample>, s: HealthSample)
    ensures Latest(front + [s]) == if front == [] || Latest(front).wallNs <= s.wallNs then s else Latest(front)
  {
    assert (front + [s])[..|front|] == front;
  }

  lemma FreshLast(front: seq<HealthSample>, s: HealthSample, t: Threshold, now: int, skewNs: int)
    ensures FreshOf(front + [s], t, now, skewNs)
         == if Fresh(s, t, now, skewNs) then FreshOf(front, t, now, skewNs) + [s] else FreshOf(front, t, now, skewNs)
  {
    assert (front + [s])[..|front|] == front;
  }

  lemma AgedLast(front: seq<HealthSample>, s: HealthSample, t: Threshold, now: int, skewNs: int)
    ensures AgedCount(front + [s], t, now, skewNs)
         == AgedCount(front, t, now, skewNs) + if AgedOut(s, t, now, skewNs) then 1 else 0
  {
    assert (front + [s])[..|front|] == front;
  }

  lemma FutureLast(front: seq<HealthSample>, s: HealthSample, now: int, skewNs: int)
    ensures FutureSeen(front + [s], now, skewNs)
         == (FutureSeen(front, now, skewNs) || (s.presence == Present && FromFuture(s, now, skewNs)))
  {
    assert s in front + [s];
  }

  lemma IssueLast(front: seq<HealthSample>, s: HealthSample, t: Threshold, now: int, skewNs: int)
    ensures FirstUnusable(front + [s], t, now, skewNs)
         == if FirstUnusable(front, t, now, skewNs).Some? || Fresh(s, t, now, skewNs)
            then FirstUnusable(front, t, now, skewNs) else Some(UnusableKind(s, now, skewNs))
  {
    assert (front + [s])[..|front|] == front;
  }

  lemma CollectNone(t: Threshold, now: int, skewNs: int)
    ensures FreshOf([], t, now, skewNs) == [] && AgedCount([], t, now, skewNs) == 0
    ensures !FutureSeen([], now, skewNs) && FirstUnusable([], t, now, skewNs) == None
  {
  }

  /** The branch of `classify_series` without a threshold. */
  method ClassifyUnjudged(list: seq<HealthSample>, fenced: nat, now: int) returns (c: Classification)
    ensures c == Unjudged(list, fenced, now)
  {
    hide PresentOf, Latest;
    PresentNone();
    var newestPresent: Option<HealthSample> := None;
    for i := 0 to |list|
      invariant newestPresent == if PresentOf(list[..i]) == [] then None else Some(Latest(PresentOf(list[..i])))
    {
      var s := list[i];
      assert list[..i + 1] == list[..i] + [s];
      PresentLast(list[..i], s);
      if s.presence == Present {
        LatestLast(PresentOf(list[..i]), s);
        if newestPresent == None || newestPresent.value.wallNs <= s.wallNs {
          newestPresent := Some(s);
        }
      }
    }
    assert list[..|list|] == list;
    c := if newestPresent == None then Classification(UnknownState, NotAvailableIssue, None, 0, 0, fenced, |list|)
         else Classification(UnclassifiedState, NoThreshold, ReadingOf(newestPresent.value, now), 0, 0, fenced, |list|);
  }

  /** The freshness loop of `classify_series`: fresh samples, aged-out and future counts, the
      newest fresh sample and the first reason. */
  method CollectFresh(list: seq<HealthSample>, t: Threshold, now: int, skewNs: int)
    returns (usable: seq<HealthSample>, aged: nat, future: bool, issue: Option<IssueKind>, newest: Option<HealthSample>)
    ensures usable == FreshOf(list, t, now, skewNs)
    ensures aged == AgedCount(list, t, now, skewNs)
    ensures future == FutureSeen(list, now, skewNs)
    ensures issue == FirstUnusable(list, t, now, skewNs)
    ensures newest == if usable == [] then None else Some(Latest(usable))
  {
    hide FreshOf, AgedCount, FutureSeen, FirstUnusable, Latest, UnusableKind;
    usable, aged, future, issue, newest := [], 0, false, None, None;
    CollectNone(t, now, skewNs);
    for i := 0 to |list|
      invariant usable == FreshOf(list[..i], t, now, skewNs)
      invariant aged == AgedCount(list[..i], t, now, skewNs)
      invariant future == FutureSeen(list[..i], now, skewNs)
      invariant issue == FirstUnusable(list[..i], t, now, skewNs)
      invariant newest == if usable == [] then None else Some(Latest(usable))
    {
      var s := list[i];
      assert list[..i + 1] == list[..i] + [s];
      FreshLast(list[..i], s, t, now, skewNs);
      AgedLast(list[..i], s, t, now, skewNs);
      FutureLast(list[..i], s, now, skewNs);
      IssueLast(list[..i], s, t, now, skewNs);
      LatestLast(usable, s);
      if s.presence == Present && !FromFuture(s, now, skewNs) && Age(now, s.wallNs) <= t.maxAgeNs {
        if newest == None || newest.value.wallNs <= s.wallNs {
          newest := Some(s);
        }
        usable := usable + [s];
      } else {
        if issue == None {
          issue := Some(UnusableKind(s, now, skewNs));
        }
        if s.presence == Present {
          aged := aged + 1;
          future := future || FromFuture(s, now, skewNs);
        }
      }
    }
    assert list[..|list|] == list;
  }

  lemma SpreadOne(s: HealthSample)
    ensures Lowest([s]) == s.value && Highest([s]) == s.value
  {
  }

  lemma SpreadLast(front: seq<HealthSample>, s: HealthSample)
    requires front != []
    ensures Lowest(front + [s]) == if s.value < Lowest(front) then s.value else Lowest(front)
    ensures Highest(front + [s]) == if Highest(front) < s.value then s.value else Highest(front)
  {
    assert (front + [s])[..|front|] == front;
  }

  method Spread(usable: seq<HealthSample>) returns (lowest: real, highest: real)
    requires usable != []
    ensures lowest == Lowest(usable) && highest == Highest(usable)
  {
    lowest, highest := usable[0].value, usable[0].value;
    assert usable[..1] == [usable[0]];
    SpreadOne(usable[0]);
    hide Lowest, Highest;
    for i := 1 to |usable|
      invariant lowest == Lowest(usable[..i]) && highest == Highest(usable[..i])
    {
      assert usable[..i + 1] == usable[..i] + [usable[i]];
      SpreadLast(usable[..i], usable[i]);
      lowest := if usable[i].value < lowest then usable[i].value else lowest;
      highest := if highest < usable[i].value then usable[i].value else highest;
    }
    assert usable[..|usable|] == usable;
  }

  /** The branch of `classify_series` with a threshold. */
  method ClassifyJudged(list: seq<HealthSample>, fenced: nat, t: Threshold, now: int, skewNs: int)
    returns (c: Classification)
    ensures c == Judged(list, fenced, t, now, skewNs)
  {
    hide FreshOf, AgedCount, FutureSeen, FirstUnusable, Latest, Lowest, Highest, ClassifyValue, ReadingOf;
    var usable, aged, future, issue, newestFresh := CollectFresh(list, t, now, skewNs);
    c := Classification(UnknownState, Missing, None, |usable|, |list| - |usable|, fenced, |list|);
    if usable == [] {
      if aged > 0 {
        c := c.(state := StaleState, reason := if future then FutureTimestamp else StaleIssue);
      } else {
        c := c.(reason := if issue.Some? then issue.value else Missing);
      }
      return;
    }
    c := c.(reading := ReadingOf(newestFresh.value, now));
    var lowest, highest := Spread(usable);
    if |usable| > 1 && highest - lowest > t.disagreementTolerance {
      c := c.(state := ConflictingState, reason := SourceConflict);
    } else {
      c := c.(state := ClassifyValue(t, newestFresh.value.value));
    }
  }

  /** src/health.cpp `classify_series`. */
  method ClassifySeries(samples: seq<HealthSample>, threshold: Option<Threshold>, uid: nat, incarnation: nat,
                        now: int, skewNs: int) returns (c: Classification)
    ensures c == Classify(samples, threshold, uid, incarnation, now, skewNs)
  {
    hide Unjudged, Judged, NewestBySource, FencedCount, Listed;
    var newest, fenced := CollectNewest(samples, uid, incarnation);
    var list := Listed(newest, Ascending(newest.Keys));
    if list == [] {
      c := Classification(if fenced > 0 then FencedState else UnknownState,
                          if fenced > 0 then FencedIssue else Missing, None, 0, 0, fenced, 0);
    } else if threshold == None {
      c := ClassifyUnjudged(list, fenced, now);
    } else {
      c := ClassifyJudged(list, fenced, threshold.value, now, skewNs);
    }
  }

  // ----- what a classification rests on --------------------------------------------------

  /** The sources whose newest sample currently counts. */
  function Contributing(samples: seq<HealthSample>, t: Threshold, uid: nat, incarnation: nat,
                        now: int, skewNs: int): set<nat>
  {
    set s | s in FreshOf(Newest(samples, uid, incarnation), t, now, skewNs) :: s.source
  }

  /** `s` is usable evidence: measured, of this incarnation and a live source, in date. */
  ghost predicate Supports(s: HealthSample, samples: seq<HealthSample>, t: Threshold, uid: nat, incarnation: nat,
                           now: int, skewNs: int)
  {
    && s in samples && Eligible(s, uid, incarnation)
    && s.presence == Present && s.wallNs <= now + skewNs && now - s.wallNs <= t.maxAgeNs
  }

  /** A series is judged Ok, Degraded or Critical only on a published threshold and fresh
      measurements that agree within its tolerance. */
  lemma ZoneRestsOnEvidence(samples: seq<HealthSample>, threshold: Option<Threshold>, uid: nat, incarnation: nat,
                            now: int, skewNs: int) returns (basis: HealthSample)
    requires IsHysteresisState(Classify(samples, threshold, uid, incarnation, now, skewNs).state)
    ensures threshold.Some?
    ensures Supports(basis, samples, threshold.value, uid, incarnation, now, skewNs)
    ensures var c := Classify(samples, threshold, uid, incarnation, now, skewNs);
            && c.reading == ReadingOf(basis, now)
            && c.state == ClassifyValue(threshold.value, basis.value)
    ensures var list := FreshOf(Newest(samples, uid, incarnation), threshold.value, now, skewNs);
            && (forall a, b :: a in list && b in list && |list| > 1 ==>
                  a.value - b.value <= threshold.value.disagreementTolerance)
            && (forall a :: a in list ==> Supports(a, samples, threshold.value, uid, incarnation, now, skewNs))
  {
    JudgedInZone(samples, threshold, uid, incarnation, now, skewNs);
    var t := threshold.value;
    var usable := FreshOf(Newest(samples, uid, incarnation), t, now, skewNs);
    basis := Latest(usable);
    forall a | a in usable
      ensures Supports(a, samples, t, uid, incarnation, now, skewNs)
    {
      hide Newest, FreshOf, Latest, Classify;
      NewestMembers(samples, uid, incarnation, a);
    }
    forall a, b | a in usable && b in usable && |usable| > 1
      ensures a.value - b.value <= t.disagreementTolerance
    {
      hide Newest, FreshOf, Latest, Classify, Highest, Lowest;
      assert a.value <= Highest(usable) && Lowest(usable) <= b.value;
    }
  }

  lemma JudgedInZone(samples: seq<HealthSample>, threshold: Option<Threshold>, uid: nat, incarnation: nat,
                     now: int, skewNs: int)
    requires IsHysteresisState(Classify(samples, threshold, uid, incarnation, now, skewNs).state)
    ensures threshold.Some?
    ensures var usable := FreshOf(Newest(samples, uid, incarnation), threshold.value, now, skewNs);
            var c := Classify(samples, threshold, uid, incarnation, now, skewNs);
            && usable != []
            && (|usable| > 1 ==> Highest(usable) - Lowest(usable) <= threshold.value.disagreementTolerance)
            && c.reading == ReadingOf(Latest(usable), now)
            && c.state == ClassifyValue(threshold.value, Latest(usable).value)
  {
    hide FreshOf, Latest, Newest, Lowest, Highest, AgedCount, FirstUnusable, ReadingOf, PresentOf, ClassifyValue;
  }

  /** With no new sample and a clock that only moves forward, fresh evidence can only run out:
      contributing sources shrink and a stale series stays stale. The bound on the stamps is
      what ingestion enforces. */
  lemma EvidenceOnlyAges(samples: seq<HealthSample>, t: Threshold, uid: nat, incarnation: nat,
                         earlier: int, later: int, skewNs: int)
    requires earlier <= later
    requires forall s :: s in samples ==> s.wallNs <= earlier + skewNs
    ensures Contributing(samples, t, uid, incarnation, later, skewNs)
         <= Contributing(samples, t, uid, incarnation, earlier, skewNs)
    ensures Classify(samples, Some(t), uid, incarnation, earlier, skewNs).state == StaleState
        ==> Classify(samples, Some(t), uid, incarnation, later, skewNs).state == StaleState
  {
    var list := Newest(samples, uid, incarnation);
    forall s | s in list
      ensures s.wallNs <= earlier + skewNs
    {
      hide Newest, Classify;
      NewestMembers(samples, uid, incarnation, s);
    }
    FreshnessRunsOut(list, t, earlier, later, skewNs);
    StaleExactly(samples, t, uid, incarnation, earlier, skewNs);
    StaleExactly(samples, t, uid, incarnation, later, skewNs);
    hide Newest, Classify, FreshOf, AgedOut, Fresh;
  }

  lemma FreshnessRunsOut(list: seq<HealthSample>, t: Threshold, earlier: int, later: int, skewNs: int)
    requires earlier <= later && forall s :: s in list ==> s.wallNs <= earlier + skewNs
    ensures forall s :: s in FreshOf(list, t, later, skewNs) ==> s in FreshOf(list, t, earlier, skewNs)
    ensures forall s :: s in list && AgedOut(s, t, earlier, skewNs) ==> AgedOut(s, t, later, skewNs)
    ensures FreshOf(list, t, earlier, skewNs) == [] ==> FreshOf(list, t, later, skewNs) == []
  {
    hide FreshOf;
    var after := FreshOf(list, t, later, skewNs);
    if after != [] {
      assert after[0] in FreshOf(list, t, earlier, skewNs);
    }
  }

  /** A judged series is stale exactly when nothing is fresh and something has aged out. */
  lemma StaleExactly(samples: seq<HealthSample>, t: Threshold, uid: nat, incarnation: nat, now: int, skewNs: int)
    ensures Classify(samples, Some(t), uid, incarnation, now, skewNs).state == StaleState
       <==> FreshOf(Newest(samples, uid, incarnation), t, now, skewNs) == []
            && exists s :: s in Newest(samples, uid, incarnation) && AgedOut(s, t, now, skewNs)
  {
    hide FreshOf, Latest, Newest, Lowest, Highest, AgedCount, FirstUnusable, ReadingOf, PresentOf, AgedOut;
  }
}
