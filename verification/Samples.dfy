/** trim_samples, src/registry.cpp:378-406: a ring per series, then a cap per module. */
module Samples {
  import opened Bytes
  import opened Ordering
  import opened Health
  import opened HealthReport
  import opened Trim

  /** The stored samples, the per-series counters, and how many samples were dropped. */
  datatype Ring = Ring(samples: seq<HealthSample>, counts: map<nat, nat>, dropped: nat)

  function OfSeries(code: nat): HealthSample -> bool { (s: HealthSample) => SampleSeries(s) == code }

  function SeriesIn(samples: seq<HealthSample>, code: nat): seq<HealthSample> { Filter(samples, OfSeries(code)) }

  function CountOf(counts: map<nat, nat>, code: nat): nat { if code in counts then counts[code] else 0 }

  function FirstOf(samples: seq<HealthSample>, code: nat): (i: nat)
    ensures i <= |samples|
    ensures i < |samples| ==> SampleSeries(samples[i]) == code
    ensures forall k :: 0 <= k < i ==> SampleSeries(samples[k]) != code
  {
    if samples == [] || SampleSeries(samples[0]) == code then 0 else 1 + FirstOf(samples[1..], code)
  }

  /** The inner loop: drop the series' oldest sample while its counter is over the limit. */
  function TrimSeries(r: Ring, code: nat, limit: nat): Ring
    decreases CountOf(r.counts, code)
  {
    var count := CountOf(r.counts, code);
    var i := FirstOf(r.samples, code);
    if count <= limit || i == |r.samples| then r
    else TrimSeries(Ring(Erase(r.samples, i), r.counts[code := count - 1], r.dropped + 1), code, limit)
  }

  function TrimAllSeries(r: Ring, codes: seq<nat>, limit: nat): Ring {
    if codes == [] then r
    else TrimSeries(TrimAllSeries(r, codes[..|codes| - 1], limit), codes[|codes| - 1], limit)
  }

  function KeepNewest(r: Ring, maxTotal: nat): Ring {
    if |r.samples| <= maxTotal then r
    else
      var excess := |r.samples| - maxTotal;
      r.(samples := r.samples[excess..], dropped := r.dropped + excess)
  }

  function TrimRing(r: Ring, limit: nat, maxTotal: nat): Ring {
    KeepNewest(TrimAllSeries(r, Ascending(r.counts.Keys), limit), maxTotal)
  }

  /** The counters decode_module builds while it reads the samples. */
  function Recount(samples: seq<HealthSample>): map<nat, nat> {
    if samples == [] then map[]
    else
      var counts := Recount(samples[..|samples| - 1]);
      var code := SampleSeries(samples[|samples| - 1]);
      counts[code := CountOf(counts, code) + 1]
  }

  // ----- The loops -----

  method FindFirst(samples: seq<HealthSample>, code: nat) returns (i: nat)
    ensures i == FirstOf(samples, code)
  {
    i := 0;
    while i < |samples| && SampleSeries(samples[i]) != code
      invariant i <= FirstOf(samples, code)
    {
      i := i + 1;
    }
  }

  method TrimOneSeries(start: Ring, code: nat, limit: nat) returns (r: Ring)
    ensures r == TrimSeries(start, code, limit)
  {
    hide FirstOf;
    r := start;
    while CountOf(r.counts, code) > limit
      invariant TrimSeries(r, code, limit) == TrimSeries(start, code, limit)
      decreases CountOf(r.counts, code)
    {
      var i := FindFirst(r.samples, code);
      if i == |r.samples| {
        break;
      }
      r := Ring(Erase(r.samples, i), r.counts[code := r.counts[code] - 1], r.dropped + 1);
    }
  }

  method DropOldest(start: Ring, maxTotal: nat) returns (r: Ring)
    ensures r == KeepNewest(start, maxTotal)
  {
    r := start;
    var n := 0;
    while |r.samples| > maxTotal
      invariant n <= |start.samples| && r == start.(samples := start.samples[n..], dropped := start.dropped + n)
      invariant n > 0 ==> |start.samples| - n >= maxTotal
    {
      r := r.(samples := r.samples[1..], dropped := r.dropped + 1);
      n := n + 1;
    }
  }

  /** The whole of trim_samples. */
  method TrimSamples(start: Ring, limit: nat, maxTotal: nat) returns (r: Ring)
    ensures r == TrimRing(start, limit, maxTotal)
  {
    hide TrimSeries, KeepNewest, Ascending;
    var codes := Ascending(start.counts.Keys);
    r := start;
    for n := 0 to |codes|
      invariant r == TrimAllSeries(start, codes[..n], limit)
    {
      assert codes[..n + 1][..n] == codes[..n];
      r := TrimOneSeries(r, codes[n], limit);
    }
    assert codes[..|codes|] == codes;
    r := DropOldest(r, maxTotal);
  }

  // ----- What is kept -----

  function Excess(count: nat, limit: nat): nat { if count > limit then count - limit else 0 }

  function Drop<T>(s: seq<T>, n: nat): seq<T> { if n >= |s| then [] else s[n..] }

  lemma {:induction false} FilterNothing<T>(s: seq<T>, p: T -> bool)
    requires forall x :: x in s ==> !p(x)
    ensures Filter(s, p) == []
  {
    if s != [] {
      assert s[|s| - 1] in s;
      FilterNothing(s[..|s| - 1], p);
    }
  }

  lemma EraseFirst(samples: seq<HealthSample>, code: nat, other: nat)
    requires FirstOf(samples, code) < |samples|
    ensures SeriesIn(samples, code) != []
    ensures SeriesIn(Erase(samples, FirstOf(samples, code)), other) ==
            if other == code then SeriesIn(samples, code)[1..] else SeriesIn(samples, other)
  {
    hide Filter;
    var i := FirstOf(samples, code);
    var a, x, b := samples[..i], samples[i], samples[i + 1..];
    assert samples == (a + [x]) + b;
    FilterAppend(a, b, OfSeries(other));
    FilterAppend(a + [x], b, OfSeries(other));
    FilterLast(a, x, OfSeries(other));
    FilterAppend(a + [x], b, OfSeries(code));
    FilterLast(a, x, OfSeries(code));
    FilterNothing(a, OfSeries(code));
  }

  lemma NoneLeft(samples: seq<HealthSample>, code: nat)
    requires FirstOf(samples, code) == |samples|
    ensures SeriesIn(samples, code) == []
  {
    FilterNothing(samples, OfSeries(code));
  }

  /** One series loses exactly its oldest entries, as many as the counter is over; the others nothing. */
  lemma {:induction false} TrimSeriesExact(r: Ring, code: nat, limit: nat, other: nat)
    ensures var t := TrimSeries(r, code, limit);
      && SeriesIn(t.samples, other) ==
         (if other == code then Drop(SeriesIn(r.samples, code), Excess(CountOf(r.counts, code), limit))
          else SeriesIn(r.samples, other))
      && CountOf(t.counts, other) + |SeriesIn(r.samples, other)| ==
         CountOf(r.counts, other) + |SeriesIn(t.samples, other)|
      && |t.samples| + t.dropped == |r.samples| + r.dropped
      && t.counts.Keys == r.counts.Keys
    decreases CountOf(r.counts, code)
  {
    hide SeriesIn, FirstOf, TrimSeries, Drop, Excess, CountOf;
    TrimSeriesOpens(r, code, limit);
    if CountOf(r.counts, code) > limit {
      if FirstOf(r.samples, code) == |r.samples| {
        NoneLeft(r.samples, code);
        DropNothing<HealthSample>(Excess(CountOf(r.counts, code), limit));
      } else {
        EraseFirst(r.samples, code, other);
        EraseFirst(r.samples, code, code);
        DropMore(SeriesIn(r.samples, code), CountOf(r.counts, code), limit);
        TrimSeriesExact(Shorter(r, code), code, limit, other);
      }
    } else {
      DropNone(SeriesIn(r.samples, code), CountOf(r.counts, code), limit);
    }
  }

  /** One round of the inner loop. */
  function Shorter(r: Ring, code: nat): Ring
    requires FirstOf(r.samples, code) < |r.samples| && CountOf(r.counts, code) > 0
  {
    Ring(Erase(r.samples, FirstOf(r.samples, code)), r.counts[code := CountOf(r.counts, code) - 1], r.dropped + 1)
  }

  lemma TrimSeriesOpens(r: Ring, code: nat, limit: nat)
    ensures CountOf(r.counts, code) > limit && FirstOf(r.samples, code) < |r.samples| ==>
      && TrimSeries(r, code, limit) == TrimSeries(Shorter(r, code), code, limit)
      && (forall c :: CountOf(Shorter(r, code).counts, c) == CountOf(r.counts, c) - if c == code then 1 else 0)
      && |Shorter(r, code).samples| + 1 == |r.samples| && Shorter(r, code).counts.Keys == r.counts.Keys
    ensures CountOf(r.counts, code) <= limit || FirstOf(r.samples, code) == |r.samples| ==>
            TrimSeries(r, code, limit) == r
  {
    hide FirstOf;
  }

  lemma DropMore<T>(s: seq<T>, count: nat, limit: nat)
    requires s != [] && count > limit
    ensures Drop(s[1..], Excess(count - 1, limit)) == Drop(s, Excess(count, limit))
  {
  }

  lemma DropNone<T>(s: seq<T>, count: nat, limit: nat)
    requires count <= limit
    ensures Drop(s, Excess(count, limit)) == s
  {
  }

  lemma {:induction false} TrimAllExact(r: Ring, codes: seq<nat>, limit: nat, other: nat)
    requires forall p, q :: 0 <= p < q < |codes| ==> codes[p] != codes[q]
    ensures var t := TrimAllSeries(r, codes, limit);
      && SeriesIn(t.samples, other) ==
         (if other in codes then Drop(SeriesIn(r.samples, other), Excess(CountOf(r.counts, other), limit))
          else SeriesIn(r.samples, other))
      && CountOf(t.counts, other) + |SeriesIn(r.samples, other)| ==
         CountOf(r.counts, other) + |SeriesIn(t.samples, other)|
      && |t.samples| + t.dropped == |r.samples| + r.dropped
      && t.counts.Keys == r.counts.Keys
  {
    hide SeriesIn, TrimSeries, CountOf, Drop, Excess;
    if codes != [] {
      var front, code := codes[..|codes| - 1], codes[|codes| - 1];
      var before := TrimAllSeries(r, front, limit);
      TrimAllExact(r, front, limit, other);
      TrimAllExact(r, front, limit, code);
      TrimSeriesExact(before, code, limit, other);
      assert codes == front + [code];
      assert code !in front;
    }
  }

  /** The counter of a series is never below what is stored of it. */
  ghost predicate Counted(r: Ring) {
    forall code :: |SeriesIn(r.samples, code)| <= CountOf(r.counts, code)
  }

  lemma SeriesSuffix(samples: seq<HealthSample>, n: nat, code: nat)
    requires n <= |samples|
    ensures SeriesIn(samples, code) == SeriesIn(samples[..n], code) + SeriesIn(samples[n..], code)
  {
    assert samples == samples[..n] + samples[n..];
    FilterAppend(samples[..n], samples[n..], OfSeries(code));
  }

  lemma Distinct(codes: set<nat>)
    ensures forall p, q :: 0 <= p < q < |Ascending(codes)| ==> Ascending(codes)[p] != Ascending(codes)[q]
    ensures forall code :: code in Ascending(codes) <==> code in codes
  {
  }

  ghost predicate IsSuffix<T>(a: seq<T>, b: seq<T>) { |a| <= |b| && a == b[|b| - |a|..] }

  /**
   * Nothing is lost uncounted, every series keeps a suffix within the limit, the module cap holds, and
   * the counters still cover what is stored.
   */
  lemma TrimRingExact(r: Ring, limit: nat, maxTotal: nat, code: nat)
    requires Counted(r)
    ensures var t := TrimRing(r, limit, maxTotal);
      && |t.samples| + t.dropped == |r.samples| + r.dropped
      && |t.samples| <= maxTotal
      && IsSuffix(SeriesIn(t.samples, code), SeriesIn(r.samples, code))
      && |SeriesIn(t.samples, code)| <= limit
      && |SeriesIn(t.samples, code)| <= CountOf(t.counts, code)
      && t.counts.Keys == r.counts.Keys
  {
    hide SeriesIn, TrimAllSeries, Ascending, KeepNewest, Drop, Excess, CountOf, IsSuffix;
    var codes := Ascending(r.counts.Keys);
    var t := TrimAllSeries(r, codes, limit);
    AllSeriesExact(r, limit, code);
    KeepNewestExact(t, maxTotal, code);
    SuffixOfSuffix(SeriesIn(KeepNewest(t, maxTotal).samples, code), SeriesIn(t.samples, code),
                   SeriesIn(r.samples, code));
  }

  lemma SuffixOfSuffix<T>(a: seq<T>, b: seq<T>, c: seq<T>)
    requires IsSuffix(a, b) && IsSuffix(b, c)
    ensures IsSuffix(a, c) && |a| <= |b|
  {
  }

  lemma DropIsSuffix<T>(s: seq<T>, count: nat, limit: nat)
    requires |s| <= count
    ensures IsSuffix(Drop(s, Excess(count, limit)), s) && |Drop(s, Excess(count, limit))| <= limit
  {
  }

  lemma AllSeriesExact(r: Ring, limit: nat, code: nat)
    requires Counted(r)
    ensures var t := TrimAllSeries(r, Ascending(r.counts.Keys), limit);
      && |t.samples| + t.dropped == |r.samples| + r.dropped
      && IsSuffix(SeriesIn(t.samples, code), SeriesIn(r.samples, code))
      && |SeriesIn(t.samples, code)| <= limit
      && |SeriesIn(t.samples, code)| <= CountOf(t.counts, code)
      && t.counts.Keys == r.counts.Keys
  {
    hide SeriesIn, TrimAllSeries, Ascending, Drop, Excess;
    var codes := Ascending(r.counts.Keys);
    Distinct(r.counts.Keys);
    TrimAllExact(r, codes, limit, code);
    assert |SeriesIn(r.samples, code)| <= CountOf(r.counts, code);
    DropIsSuffix(SeriesIn(r.samples, code), CountOf(r.counts, code), limit);
  }

  lemma KeepNewestExact(t: Ring, maxTotal: nat, code: nat)
    ensures var k := KeepNewest(t, maxTotal);
      && |k.samples| + k.dropped == |t.samples| + t.dropped && |k.samples| <= maxTotal && k.counts == t.counts
      && IsSuffix(SeriesIn(k.samples, code), SeriesIn(t.samples, code))
  {
    hide SeriesIn;
    if |t.samples| > maxTotal {
      SeriesSuffix(t.samples, |t.samples| - maxTotal, code);
    }
  }

  predicate EndsWith(samples: seq<HealthSample>, x: HealthSample) { samples != [] && samples[|samples| - 1] == x }

  lemma OnlyLast(samples: seq<HealthSample>, code: nat)
    requires samples != [] && FirstOf(samples, code) == |samples| - 1
    ensures SeriesIn(Erase(samples, |samples| - 1), code) == []
  {
    assert Erase(samples, |samples| - 1) == samples[..|samples| - 1];
    FilterNothing(samples[..|samples| - 1], OfSeries(code));
  }

  lemma {:induction false} TrimSeriesLast(r: Ring, code: nat, limit: nat, x: HealthSample)
    requires EndsWith(r.samples, x)
    requires SeriesIn(TrimSeries(r, code, limit).samples, SampleSeries(x)) != []
    ensures EndsWith(TrimSeries(r, code, limit).samples, x)
    decreases CountOf(r.counts, code)
  {
    hide SeriesIn, FirstOf;
    var count := CountOf(r.counts, code);
    var i := FirstOf(r.samples, code);
    if count > limit && i < |r.samples| {
      var next := Ring(Erase(r.samples, i), r.counts[code := count - 1], r.dropped + 1);
      if i == |r.samples| - 1 {
        OnlyLast(r.samples, code);
        TrimSeriesExact(next, code, limit, code);
      } else {
        TrimSeriesLast(next, code, limit, x);
      }
    }
  }

  lemma {:induction false} TrimAllLast(r: Ring, codes: seq<nat>, limit: nat, x: HealthSample)
    requires EndsWith(r.samples, x)
    requires SeriesIn(TrimAllSeries(r, codes, limit).samples, SampleSeries(x)) != []
    ensures EndsWith(TrimAllSeries(r, codes, limit).samples, x)
  {
    hide SeriesIn, TrimSeries, EndsWith, Drop, CountOf, Excess;
    if codes != [] {
      var before := TrimAllSeries(r, codes[..|codes| - 1], limit);
      TrimSeriesExact(before, codes[|codes| - 1], limit, SampleSeries(x));
      DropNothing<HealthSample>(Excess(CountOf(before.counts, codes[|codes| - 1]), limit));
      TrimAllLast(r, codes[..|codes| - 1], limit, x);
      TrimSeriesLast(before, codes[|codes| - 1], limit, x);
    }
  }

  lemma DropNothing<T>(n: nat)
    ensures Drop<T>([], n) == []
  {
  }

  lemma CountedKey(r: Ring, code: nat)
    requires Counted(r) && SeriesIn(r.samples, code) != []
    ensures code in r.counts.Keys
    ensures |SeriesIn(r.samples, code)| <= CountOf(r.counts, code)
  {
    assert |SeriesIn(r.samples, code)| <= CountOf(r.counts, code);
  }

  lemma NewestIsLast(samples: seq<HealthSample>)
    requires samples != []
    ensures var newest := samples[|samples| - 1];
      var mine := SeriesIn(samples, SampleSeries(newest));
      mine != [] && mine[|mine| - 1] == newest
  {
    FilterLast(samples[..|samples| - 1], samples[|samples| - 1], OfSeries(SampleSeries(samples[|samples| - 1])));
    assert samples == samples[..|samples| - 1] + [samples[|samples| - 1]];
  }

  lemma AfterSeries(r: Ring, limit: nat, x: HealthSample)
    requires Counted(r) && EndsWith(r.samples, x)
    ensures var t := TrimAllSeries(r, Ascending(r.counts.Keys), limit);
      var surplus := CountOf(r.counts, SampleSeries(x)) - |SeriesIn(r.samples, SampleSeries(x))|;
      && (SeriesIn(t.samples, SampleSeries(x)) == [] <==> surplus >= limit)
      && (SeriesIn(t.samples, SampleSeries(x)) != [] ==> EndsWith(t.samples, x))
  {
    hide TrimAllSeries, Ascending, SeriesIn, CountOf;
    var code, codes := SampleSeries(x), Ascending(r.counts.Keys);
    NewestIsLast(r.samples);
    Distinct(r.counts.Keys);
    TrimAllExact(r, codes, limit, code);
    CountedKey(r, code);
    if SeriesIn(TrimAllSeries(r, codes, limit).samples, code) != [] {
      TrimAllLast(r, codes, limit, x);
    }
  }

  lemma AfterCap(t: Ring, maxTotal: nat, x: HealthSample)
    requires SeriesIn(t.samples, SampleSeries(x)) != [] ==> EndsWith(t.samples, x)
    ensures EndsWith(SeriesIn(KeepNewest(t, maxTotal).samples, SampleSeries(x)), x) <==>
            maxTotal > 0 && SeriesIn(t.samples, SampleSeries(x)) != []
  {
    var code := SampleSeries(x);
    FilterNone(OfSeries(code));
    assert SeriesIn([], code) == [];
    hide SeriesIn, Filter;
    var kept := KeepNewest(t, maxTotal).samples;
    if |t.samples| > maxTotal {
      SeriesSuffix(t.samples, |t.samples| - maxTotal, code);
    }
    if SeriesIn(t.samples, code) != [] && maxTotal > 0 {
      assert EndsWith(kept, x);
      NewestIsLast(kept);
    }
  }

  /**
   * Module-wide eviction leaves the counters alone, so a counter can exceed what is stored. The sample
   * just pushed survives exactly while that surplus is below the per-series limit.
   */
  lemma FreshSampleKeptExactly(r: Ring, limit: nat, maxTotal: nat, x: HealthSample)
    requires Counted(r) && EndsWith(r.samples, x)
    ensures var code := SampleSeries(x);
      EndsWith(SeriesIn(TrimRing(r, limit, maxTotal).samples, code), x) <==>
      maxTotal > 0 && CountOf(r.counts, code) - |SeriesIn(r.samples, code)| < limit
  {
    hide Counted, TrimAllSeries, Ascending, SeriesIn, CountOf, KeepNewest, EndsWith;
    AfterSeries(r, limit, x);
    AfterCap(TrimAllSeries(r, Ascending(r.counts.Keys), limit), maxTotal, x);
  }

  // ----- A series that can no longer store anything -----

  /** One more sample arrives: pushed, counted, trimmed. */
  function Arrive(r: Ring, x: HealthSample, limit: nat, maxTotal: nat): Ring {
    var code := SampleSeries(x);
    TrimRing(Ring(r.samples + [x], r.counts[code := CountOf(r.counts, code) + 1], r.dropped), limit, maxTotal)
  }

  /** How far the counter of a series is above what is stored of it. */
  function Surplus(r: Ring, code: nat): int { CountOf(r.counts, code) - |SeriesIn(r.samples, code)| }

  lemma {:induction false} NothingOver(r: Ring, codes: seq<nat>, limit: nat)
    requires forall code :: CountOf(r.counts, code) <= limit
    ensures TrimAllSeries(r, codes, limit) == r
  {
    if codes != [] {
      NothingOver(r, codes[..|codes| - 1], limit);
    }
  }

  /**
   * From the empty ring, both caps one, three samples of two series: the third, second of its series, is lost on
   * arrival although the ring holds nothing else of that series.
   */
  lemma FreshSampleCanBeLost(x1: HealthSample, y1: HealthSample, x2: HealthSample)
    requires SampleSeries(x1) == SampleSeries(x2) != SampleSeries(y1)
    ensures var r1 := Arrive(Ring([], map[], 0), x1, 1, 1);
      var r2 := Arrive(r1, y1, 1, 1);
      var r3 := Arrive(r2, x2, 1, 1);
      && r1.samples == [x1] && r2.samples == [y1]
      && r3.samples == [y1] && SeriesIn(r3.samples, SampleSeries(x2)) == [] && r3.dropped == 2
  {
    hide TrimRing, SampleSeries, SeriesIn;
    var x, y := SampleSeries(x1), SampleSeries(y1);
    assert [] + [x1] == [x1] && map[][x := 1] == map[x := 1];
    WithinLimit(Ring([x1], map[x := 1], 0), 1, 1);
    assert map[x := 1][y := 1] == map[x := 1, y := 1];
    WithinLimit(Ring([x1] + [y1], map[x := 1, y := 1], 0), 1, 1);
    assert ([x1] + [y1])[1..] == [y1];
    assert map[x := 1, y := 1][x := 2] == map[x := 2, y := 1];
    ThirdIsLost(y1, x2);
  }

  lemma WithinLimit(r: Ring, limit: nat, maxTotal: nat)
    requires forall code :: CountOf(r.counts, code) <= limit
    ensures TrimRing(r, limit, maxTotal) == KeepNewest(r, maxTotal)
  {
    hide TrimAllSeries, KeepNewest;
    NothingOver(r, Ascending(r.counts.Keys), limit);
  }

  lemma ThirdIsLost(y1: HealthSample, x2: HealthSample)
    requires SampleSeries(x2) != SampleSeries(y1)
    ensures var r := TrimRing(Ring([y1] + [x2], map[SampleSeries(x2) := 2, SampleSeries(y1) := 1], 1), 1, 1);
      r.samples == [y1] && SeriesIn(r.samples, SampleSeries(x2)) == [] && r.dropped == 2
  {
    hide TrimAllSeries, SeriesIn, Ascending, SampleSeries;
    var x, y := SampleSeries(x2), SampleSeries(y1);
    var pushed := Ring([y1] + [x2], map[x := 2, y := 1], 1);
    var codes := Ascending(pushed.counts.Keys);
    var kept := TrimAllSeries(pushed, codes, 1);
    Distinct(pushed.counts.Keys);
    forall c ensures SeriesIn(kept.samples, c) == if c == y then [y1] else [] {
      PairSeries(y1, x2, c);
      TrimAllExact(pushed, codes, 1, c);
    }
    TrimAllExact(pushed, codes, 1, y);
    OneSeriesOnly(kept.samples, y);
  }

  lemma PairSeries(y1: HealthSample, x2: HealthSample, c: nat)
    requires SampleSeries(x2) != SampleSeries(y1)
    ensures SeriesIn([y1] + [x2], c) ==
            if c == SampleSeries(x2) then [x2] else if c == SampleSeries(y1) then [y1] else []
  {
    hide Filter;
    FilterLast([y1], x2, OfSeries(c));
    OneSample(y1, c);
  }

  lemma OneSeriesOnly(samples: seq<HealthSample>, code: nat)
    requires forall c :: c != code ==> SeriesIn(samples, c) == []
    ensures SeriesIn(samples, code) == samples
  {
    forall x | x in samples ensures SampleSeries(x) == code {
      assert OfSeries(SampleSeries(x))(x);
      assert x in SeriesIn(samples, SampleSeries(x));
    }
    FilterAll(samples, code);
  }

  lemma {:induction false} FilterAll(samples: seq<HealthSample>, code: nat)
    requires forall x :: x in samples ==> SampleSeries(x) == code
    ensures SeriesIn(samples, code) == samples
  {
    if samples != [] {
      assert samples == samples[..|samples| - 1] + [samples[|samples| - 1]];
      FilterAll(samples[..|samples| - 1], code);
    }
  }

  /** A series is empty, or its counter is within the limit: what every trim leaves behind. */
  ghost predicate Balanced(r: Ring, limit: nat) {
    forall code :: SeriesIn(r.samples, code) == [] || CountOf(r.counts, code) <= limit
  }

  lemma ArriveSeries(r: Ring, x: HealthSample, code: nat)
    requires Counted(r)
    ensures var mine := SampleSeries(x);
      var p := Ring(r.samples + [x], r.counts[mine := CountOf(r.counts, mine) + 1], r.dropped);
      Surplus(p, code) == Surplus(r, code) && Counted(p)
  {
    hide Filter;
    var mine := SampleSeries(x);
    var p := Ring(r.samples + [x], r.counts[mine := CountOf(r.counts, mine) + 1], r.dropped);
    forall c ensures |SeriesIn(p.samples, c)| - CountOf(p.counts, c)
      == |SeriesIn(r.samples, c)| - CountOf(r.counts, c) {
      FilterLast(r.samples, x, OfSeries(c));
    }
    forall c ensures |SeriesIn(p.samples, c)| <= CountOf(p.counts, c) {
      assert |SeriesIn(r.samples, c)| <= CountOf(r.counts, c);
    }
  }

  lemma TrimmedBalance(r: Ring, limit: nat, maxTotal: nat, code: nat)
    requires Counted(r)
    ensures var t := TrimRing(r, limit, maxTotal);
      && Surplus(t, code) >= Surplus(r, code)
      && (SeriesIn(t.samples, code) == [] || CountOf(t.counts, code) <= limit)
  {
    hide SeriesIn, TrimAllSeries, Ascending, CountOf, KeepNewest, IsSuffix;
    var codes := Ascending(r.counts.Keys);
    var t := TrimAllSeries(r, codes, limit);
    Distinct(r.counts.Keys);
    TrimAllExact(r, codes, limit, code);
    KeepNewestExact(t, maxTotal, code);
    SuffixShorter(SeriesIn(KeepNewest(t, maxTotal).samples, code), SeriesIn(t.samples, code));
    assert |SeriesIn(r.samples, code)| <= CountOf(r.counts, code);
    if SeriesIn(r.samples, code) != [] {
      CountedKey(r, code);
    }
  }

  lemma SuffixShorter<T>(a: seq<T>, b: seq<T>)
    requires IsSuffix(a, b)
    ensures |a| <= |b| && (b == [] ==> a == [])
  {
  }

  /** No arrival lowers the surplus of any series, and every arrival leaves the ring balanced. */
  lemma SurplusNeverFalls(r: Ring, x: HealthSample, limit: nat, maxTotal: nat, code: nat)
    requires Counted(r)
    ensures Surplus(Arrive(r, x, limit, maxTotal), code) >= Surplus(r, code)
    ensures Balanced(Arrive(r, x, limit, maxTotal), limit)
  {
    hide TrimRing, SeriesIn, CountOf, Counted;
    ArriveSeries(r, x, code);
    var mine := SampleSeries(x);
    var p := Ring(r.samples + [x], r.counts[mine := CountOf(r.counts, mine) + 1], r.dropped);
    TrimmedBalance(p, limit, maxTotal, code);
    var t := TrimRing(p, limit, maxTotal);
    forall c ensures SeriesIn(t.samples, c) == [] || CountOf(t.counts, c) <= limit {
      TrimmedBalance(p, limit, maxTotal, c);
    }
  }

  /** A balanced ring stores nothing of a series whose surplus has reached the limit. */
  lemma SurplusStarves(r: Ring, limit: nat, code: nat)
    requires Balanced(r, limit) && Surplus(r, code) >= limit
    ensures SeriesIn(r.samples, code) == []
  {
    hide SeriesIn;
    assert SeriesIn(r.samples, code) == [] || CountOf(r.counts, code) <= limit;
  }

  lemma OneSample(a: HealthSample, code: nat)
    ensures SeriesIn([a], code) == if SampleSeries(a) == code then [a] else []
  {
    FilterNone(OfSeries(code));
    FilterLast([], a, OfSeries(code));
    assert [] + [a] == [a];
  }
}
