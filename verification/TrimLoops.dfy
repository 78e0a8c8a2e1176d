/** The trimming loops of src/registry.cpp:205-376, run in place on a list and proved against Trim. */
module TrimLoops {
  import opened Bytes
  import opened Ordering
  import opened Consensus
  import opened Trim

  method TestSuperseded<V>(kind: ClaimKind, claims: seq<Claim<V>>, index: nat) returns (superseded: bool)
    requires index < |claims|
    ensures superseded == IsSuperseded(kind, claims, claims[index])
  {
    for i := 0 to |claims|
      invariant forall j :: 0 <= j < i ==> !Supersedes(kind, claims[j], claims[index])
    {
      if i == index {
        continue;
      }
      if Supersedes(kind, claims[i], claims[index]) {
        return true;
      }
    }
    return false;
  }

  /** The first loop. Its guard counts down with the list, so it never stops the loop early. */
  method FitTotal<V>(kind: ClaimKind, s: seq<Claim<V>>, maxTotal: nat) returns (r: Result<seq<Claim<V>>>)
    ensures r == Shrink(kind, s, maxTotal)
  {
    hide IsSuperseded;
    var claims, guard := s, |s|;
    while |claims| > maxTotal && guard > 0
      invariant guard == |claims|
      invariant Shrink(kind, claims, maxTotal) == Shrink(kind, s, maxTotal)
    {
      guard := guard - 1;
      var i := 0;
      while i < |claims|
        invariant i <= FirstSuperseded(kind, claims, 0)
      {
        var superseded := TestSuperseded(kind, claims, i);
        if superseded {
          break;
        }
        i := i + 1;
      }
      if i == |claims| {
        return Err(CapacityExceeded);
      }
      claims := Erase(claims, i);
    }
    r := if |claims| > maxTotal then Err(CapacityExceeded) else Ok(claims);
  }

  // ----- The history groups -----

  datatype SeriesKey = SeriesKey(attr: nat, subkey: Text, source: nat, epoch: nat)

  function SeriesOf<V>(c: Claim<V>): SeriesKey { SeriesKey(c.attr, c.subkey, c.source, c.epoch) }

  function Positions<V>(s: seq<Claim<V>>, key: SeriesKey, n: nat): (r: seq<nat>)
    requires n <= |s|
    ensures forall i :: i in r <==> 0 <= i < n && SeriesOf(s[i]) == key
    ensures forall p, q :: 0 <= p < q < |r| ==> r[p] < r[q]
  {
    if n == 0 then []
    else
      var front := Positions(s, key, n - 1);
      assert forall p :: 0 <= p < |front| ==> front[p] in front;
      if SeriesOf(s[n - 1]) == key then front + [n - 1] else front
  }

  /** std::sort by sequence; entries that share one are taken in stored order. */
  function EarlierIn<V>(s: seq<Claim<V>>): (nat, nat) -> bool {
    (i: nat, j: nat) => if i < |s| && j < |s| then Earlier(s, i, j) else i < j
  }

  predicate NatLess(a: nat, b: nat) { a < b }

  lemma EarlierOrder<V>(s: seq<Claim<V>>)
    ensures TotalOrder(EarlierIn(s))
    ensures WeakOrder(EarlierIn(s))
  {
  }

  lemma SortedPositions<V>(s: seq<Claim<V>>, positions: seq<nat>)
    requires forall p, q :: 0 <= p < q < |positions| ==> positions[p] < positions[q]
    ensures StrictlySorted(Sort(positions, EarlierIn(s)), EarlierIn(s))
    ensures forall i :: i in Sort(positions, EarlierIn(s)) <==> i in positions
  {
    hide EarlierIn, Sort;
    var less := EarlierIn(s);
    var sorted := Sort(positions, less);
    EarlierOrder(s);
    SortSorted(positions, less);
    StrictOnce(positions, NatLess);
    assert forall i :: i in multiset(sorted) <==> i in multiset(positions);
    SeparatedStrict(sorted, less);
  }

  function Elements(s: seq<nat>): set<nat> { set x | x in s }

  lemma {:induction false} DistinctSize(s: seq<nat>)
    requires forall p, q :: 0 <= p < q < |s| ==> s[p] != s[q]
    ensures |Elements(s)| == |s|
  {
    if s != [] {
      var t := s[1..];
      assert forall p :: 0 <= p < |t| ==> t[p] == s[p + 1];
      DistinctSize(t);
      MoreByOne(s, t);
    }
  }

  lemma MoreByOne(s: seq<nat>, t: seq<nat>)
    requires s != [] && t == s[1..] && s[0] !in t
    ensures |Elements(s)| == |Elements(t)| + 1
  {
    assert s == [s[0]] + t;
    assert Elements(s) == Elements(t) + {s[0]};
  }

  /** The entry at place p of a sorted group has exactly the later places newer than itself. */
  lemma NewerRank<V>(s: seq<Claim<V>>, sorted: seq<nat>, key: SeriesKey, p: nat)
    requires StrictlySorted(sorted, EarlierIn(s))
    requires forall i :: i in sorted <==> 0 <= i < |s| && SeriesOf(s[i]) == key
    requires p < |sorted| && sorted[p] < |s|
    ensures |Newer(s, sorted[p])| == |sorted| - 1 - p
  {
    EarlierOrder(s);
    var later := sorted[p + 1..];
    assert sorted[p] in sorted;
    forall j: nat ensures j in Newer(s, sorted[p]) <==> j in later {
      if j in Newer(s, sorted[p]) {
        assert SameSeries(s[j], s[sorted[p]]) && Earlier(s, sorted[p], j);
        assert j in sorted;
        var q :| 0 <= q < |sorted| && sorted[q] == j;
        assert EarlierIn(s)(sorted[p], sorted[q]);
        assert q > p;
        assert later[q - p - 1] == j;
      }
      if j in later {
        var q :| 0 <= q < |later| && later[q] == j;
        assert sorted[p + 1 + q] == j;
        assert j in sorted;
      }
    }
    assert Newer(s, sorted[p]) == Elements(later);
    DistinctSize(later);
  }

  function Excess(n: nat, maxHistory: nat): nat { if n > maxHistory then n - maxHistory else 0 }

  lemma RankDecides<V>(s: seq<Claim<V>>, sorted: seq<nat>, maxHistory: nat, i: nat)
    requires forall p :: 0 <= p < |sorted| ==> sorted[p] < |s| && |Newer(s, sorted[p])| == |sorted| - 1 - p
    requires i in sorted
    ensures i < |s| && (i in sorted[..Excess(|sorted|, maxHistory)] <==> !Recent(s, i, maxHistory))
  {
    hide Newer;
    var excess := Excess(|sorted|, maxHistory);
    var p :| 0 <= p < |sorted| && sorted[p] == i;
    if i in sorted[..excess] {
      var q :| 0 <= q < excess && sorted[q] == i;
    }
    if p < excess {
      assert sorted[..excess][p] == i;
    }
  }

  function SortedGroup<V>(s: seq<Claim<V>>, key: SeriesKey): seq<nat> {
    Sort<nat>(Positions(s, key, |s|), EarlierIn(s))
  }

  /** In a sorted group the excess at the front is exactly what is not recent. */
  lemma ExcessIsOld<V>(s: seq<Claim<V>>, key: SeriesKey, maxHistory: nat)
    ensures var sorted := SortedGroup(s, key);
      forall i :: 0 <= i < |s| && SeriesOf(s[i]) == key ==>
        (i in sorted[..Excess(|sorted|, maxHistory)] <==> !Recent(s, i, maxHistory))
    ensures var sorted := SortedGroup(s, key);
      forall i :: i in sorted ==> 0 <= i < |s| && SeriesOf(s[i]) == key
  {
    hide Sort, EarlierIn, Newer, Recent;
    var positions := Positions(s, key, |s|);
    var sorted := Sort(positions, EarlierIn(s));
    SortedPositions(s, positions);
    hide Positions;
    forall p | 0 <= p < |sorted|
      ensures sorted[p] < |s| && |Newer(s, sorted[p])| == |sorted| - 1 - p
    {
      assert sorted[p] in sorted;
      NewerRank(s, sorted, key, p);
    }
    forall i | 0 <= i < |s| && SeriesOf(s[i]) == key
      ensures i in sorted[..Excess(|sorted|, maxHistory)] <==> !Recent(s, i, maxHistory)
    {
      RankDecides(s, sorted, maxHistory, i);
    }
  }

  /** Marks the oldest entries of one group. */
  method DropExcess<V>(s: seq<Claim<V>>, key: SeriesKey, indices: seq<nat>, maxHistory: nat, drop: seq<bool>)
    returns (marked: seq<bool>, count: nat)
    requires |drop| == |s| && indices == Positions(s, key, |s|)
    requires forall i :: 0 <= i < |s| && SeriesOf(s[i]) == key ==> !drop[i]
    ensures |marked| == |s|
    ensures forall i :: 0 <= i < |s| ==>
              marked[i] == if SeriesOf(s[i]) == key then !Recent(s, i, maxHistory) else drop[i]
    ensures count == 0 ==> marked == drop
  {
    hide Sort, Positions, EarlierIn, Recent;
    marked, count := drop, 0;
    var sorted := Sort<nat>(indices, EarlierIn(s));
    assert sorted == SortedGroup(s, key);
    ExcessIsOld(s, key, maxHistory);
    assert forall p :: 0 <= p < |sorted| ==> sorted[p] in sorted;
    var excess := 0;
    if |indices| > maxHistory {
      excess := |indices| - maxHistory;
      for i := 0 to excess
        invariant |marked| == |s| && (count == 0 ==> marked == drop)
        invariant forall j :: 0 <= j < |s| ==> marked[j] == (drop[j] || j in sorted[..i])
      {
        assert sorted[..i + 1] == sorted[..i] + [sorted[i]];
        marked := marked[sorted[i] := true];
        count := count + 1;
      }
    }
    forall i | 0 <= i < |s|
      ensures marked[i] == if SeriesOf(s[i]) == key then !Recent(s, i, maxHistory) else drop[i]
    {
      if i in sorted[..excess] {
        assert i in sorted;
      }
    }
  }

  lemma PositionsNone<V>(s: seq<Claim<V>>)
    ensures forall key :: Positions(s, key, 0) == []
  {
  }

  lemma PositionsNext<V>(s: seq<Claim<V>>, key: SeriesKey, n: nat)
    requires n < |s|
    ensures Positions(s, key, n + 1) == Positions(s, key, n) + (if SeriesOf(s[n]) == key then [n] else [])
  {
  }

  method GroupPositions<V>(s: seq<Claim<V>>) returns (grouped: map<SeriesKey, seq<nat>>)
    ensures forall key :: key in grouped ==> grouped[key] == Positions(s, key, |s|)
    ensures forall i :: 0 <= i < |s| ==> SeriesOf(s[i]) in grouped
  {
    hide Positions;
    grouped := map[];
    PositionsNone(s);
    for n := 0 to |s|
      invariant forall key :: key in grouped ==> grouped[key] == Positions(s, key, n)
      invariant forall key :: key !in grouped ==> Positions(s, key, n) == []
      invariant forall i :: 0 <= i < n ==> SeriesOf(s[i]) in grouped
    {
      var key := SeriesOf(s[n]);
      forall q ensures Positions(s, q, n + 1) == Positions(s, q, n) + (if q == key then [n] else []) {
        PositionsNext(s, q, n);
      }
      forall q ensures Positions(s, q, n) + [] == Positions(s, q, n) {}
      grouped := grouped[key := (if key in grouped then grouped[key] else []) + [n]];
    }
  }

  /** The second half of trim_claims and trim_declarations. */
  method KeepHistory<V>(s: seq<Claim<V>>, maxHistory: nat) returns (kept: seq<Claim<V>>)
    ensures kept == KeepRecent(s, maxHistory)
  {
    hide Recent, Positions;
    var grouped := GroupPositions(s);
    var drop := seq(|s|, (i: nat) => false);
    var dropCount := 0;
    var pending := grouped.Keys;
    while pending != {}
      invariant pending <= grouped.Keys && |drop| == |s|
      invariant forall i :: 0 <= i < |s| ==> drop[i] == (SeriesOf(s[i]) !in pending && !Recent(s, i, maxHistory))
      invariant dropCount == 0 ==> forall i :: 0 <= i < |s| ==> !drop[i]
      decreases |pending|
    {
      var key :| key in pending;
      var count;
      drop, count := DropExcess(s, key, grouped[key], maxHistory, drop);
      dropCount := dropCount + count;
      pending := pending - {key};
    }
    if dropCount == 0 {
      NothingDropped(s, maxHistory, |s|);
      assert s[..|s|] == s;
      return s;
    }
    kept := [];
    for i := 0 to |s|
      invariant kept == RecentUpTo(s, maxHistory, i)
    {
      if !drop[i] {
        kept := kept + [s[i]];
      }
    }
  }

  lemma {:induction false} NothingDropped<V>(s: seq<Claim<V>>, maxHistory: nat, n: nat)
    requires n <= |s| && forall i :: 0 <= i < |s| ==> Recent(s, i, maxHistory)
    ensures RecentUpTo(s, maxHistory, n) == s[..n]
  {
    hide Recent;
    if n > 0 {
      NothingDropped(s, maxHistory, n - 1);
    }
  }

  /** trim_claims and the module form of trim_declarations. */
  method TrimRecordList<V>(kind: ClaimKind, s: seq<Claim<V>>, maxTotal: nat, maxHistory: nat)
    returns (r: Result<seq<Claim<V>>>)
    ensures r == TrimList(kind, s, maxTotal, maxHistory)
  {
    hide Shrink, KeepRecent;
    var claims :- FitTotal(kind, s, maxTotal);
    var kept := KeepHistory(claims, maxHistory);
    return Ok(kept);
  }
}
