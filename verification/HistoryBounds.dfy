/** How many entries trimming leaves, and which: src/registry.cpp:205-376, stated on the lists alone. */
module HistoryBounds {
  import opened Bytes
  import opened Ordering
  import opened Consensus
  import opened Trim
  import opened TrimLoops

  /** The entries in which one source epoch states one attribute. */
  function Stated<V>(attr: nat, subkey: Text, source: nat, epoch: nat): Claim<V> -> bool {
    (c: Claim<V>) => c.attr == attr && c.subkey == subkey && c.source == source && c.epoch == epoch
  }

  /** The end of a list, at most n entries long. */
  function Newest<T>(s: seq<T>, n: nat): seq<T> { if |s| > n then s[|s| - n..] else s }

  // ----- The per-attribute history -----

  lemma {:induction false} PositionsCount<V>(s: seq<Claim<V>>, key: SeriesKey, n: nat)
    requires n <= |s|
    ensures |Positions(s, key, n)| == |Filter(s[..n], Stated<V>(key.attr, key.subkey, key.source, key.epoch))|
  {
    hide Filter;
    var p := Stated<V>(key.attr, key.subkey, key.source, key.epoch);
    if n > 0 {
      PositionsCount(s, key, n - 1);
      assert s[..n] == s[..n - 1] + [s[n - 1]];
      FilterLast(s[..n - 1], s[n - 1], p);
      assert p(s[n - 1]) <==> SeriesOf(s[n - 1]) == key;
    } else {
      FilterNone(p);
      assert s[..0] == [];
    }
  }

  lemma PositionsSplit<V>(s: seq<Claim<V>>, key: SeriesKey, n: nat, m: nat)
    requires n <= m <= |s|
    ensures |Positions(s, key, n)| <= |Positions(s, key, m)|
            && Positions(s, key, m)[..|Positions(s, key, n)|] == Positions(s, key, n)
    decreases m - n
  {
    if n < m {
      PositionsSplit(s, key, n, m - 1);
    }
  }

  /** In an orderly list the entries of one series stand oldest first. */
  lemma GroupInOrder<V>(s: seq<Claim<V>>, key: SeriesKey)
    requires Orderly(s)
    ensures StrictlySorted(Positions(s, key, |s|), EarlierIn(s))
  {
    var group := Positions(s, key, |s|);
    forall p, q | 0 <= p < q < |group| ensures EarlierIn(s)(group[p], group[q]) {
      assert group[p] in group && group[q] in group;
      assert s[group[p]].sequence <= s[group[q]].sequence;
    }
  }

  /** An entry is recent when fewer than the bound of its series stand behind it. */
  lemma RecentExactly<V>(s: seq<Claim<V>>, i: nat, maxHistory: nat)
    requires Orderly(s) && i < |s|
    ensures var key := SeriesOf(s[i]);
      var p := Stated<V>(key.attr, key.subkey, key.source, key.epoch);
      Recent(s, i, maxHistory) <==> |Filter(s, p)| - |Filter(s[..i], p)| <= maxHistory
  {
    hide Newer, Filter, Positions, StrictlySorted, Orderly;
    var key := SeriesOf(s[i]);
    var group := Positions(s, key, |s|);
    var before := |Positions(s, key, i)|;
    GroupInOrder(s, key);
    PositionsCount(s, key, |s|);
    PositionsCount(s, key, i);
    assert s[..|s|] == s;
    PositionAt(s, key, i);
    NewerRank(s, group, key, before);
  }

  lemma PositionAt<V>(s: seq<Claim<V>>, key: SeriesKey, i: nat)
    requires i < |s| && SeriesOf(s[i]) == key
    ensures var before := |Positions(s, key, i)|;
      before < |Positions(s, key, |s|)| && Positions(s, key, |s|)[before] == i
  {
    PositionsSplit(s, key, i + 1, |s|);
    var upTo := Positions(s, key, i + 1);
    assert upTo == Positions(s, key, i) + [i];
    assert Positions(s, key, |s|)[..|upTo|][|upTo| - 1] == i;
  }

  lemma {:induction false} KeptUpTo<V>(s: seq<Claim<V>>, maxHistory: nat, n: nat, key: SeriesKey)
    requires Orderly(s) && n <= |s|
    ensures var p := Stated<V>(key.attr, key.subkey, key.source, key.epoch);
      var excess := Excess(|Filter(s, p)|, maxHistory);
      var stated := Filter(s[..n], p);
      Filter(RecentUpTo(s, maxHistory, n), p) == if |stated| <= excess then [] else stated[excess..]
  {
    var p := Stated<V>(key.attr, key.subkey, key.source, key.epoch);
    hide Recent, Orderly, Filter;
    if n == 0 {
      FilterNone(p);
      assert s[..0] == [];
    } else {
      KeptUpTo(s, maxHistory, n - 1, key);
      var front, x := s[..n - 1], s[n - 1];
      assert s[..n] == front + [x];
      FilterLast(front, x, p);
      if Recent(s, n - 1, maxHistory) {
        FilterLast(RecentUpTo(s, maxHistory, n - 1), x, p);
      } else {
        assert RecentUpTo(s, maxHistory, n - 1) + [] == RecentUpTo(s, maxHistory, n - 1);
      }
      if p(x) {
        RecentExactly(s, n - 1, maxHistory);
        assert SeriesOf(x) == key;
      }
    }
  }

  /** Of every series exactly its newest entries stay, as many as the bound allows, in stored order. */
  lemma HistoryExactly<V>(s: seq<Claim<V>>, maxHistory: nat, attr: nat, subkey: Text, source: nat, epoch: nat)
    requires Orderly(s)
    ensures var p := Stated<V>(attr, subkey, source, epoch);
      Filter(KeepRecent(s, maxHistory), p) == Newest(Filter(s, p), maxHistory)
  {
    hide Orderly, Filter, RecentUpTo;
    KeptUpTo(s, maxHistory, |s|, SeriesKey(attr, subkey, source, epoch));
    assert s[..|s|] == s;
  }

  /** A history within the bound everywhere is kept whole. */
  lemma HistoryUntouched<V>(s: seq<Claim<V>>, maxHistory: nat)
    requires Orderly(s)
    requires forall a, k, o, e :: |Filter(s, Stated<V>(a, k, o, e))| <= maxHistory
    ensures KeepRecent(s, maxHistory) == s
  {
    hide Orderly, Recent, Filter;
    forall i | 0 <= i < |s| ensures Recent(s, i, maxHistory) {
      var c := s[i];
      assert |Filter(s, Stated<V>(c.attr, c.subkey, c.source, c.epoch))| <= maxHistory;
      RecentExactly(s, i, maxHistory);
    }
    NothingDropped(s, maxHistory, |s|);
    assert s[..|s|] == s;
  }

  // ----- The total budget -----

  /** The list without the first n entries that p picks. */
  function WithoutFirst<T>(s: seq<T>, p: T -> bool, n: nat): seq<T> {
    if s == [] || n == 0 then s
    else if p(s[0]) then WithoutFirst(s[1..], p, n - 1)
    else [s[0]] + WithoutFirst(s[1..], p, n)
  }

  /** What a newer statement of the same source superseded. */
  function Behind<V>(kind: ClaimKind, s: seq<Claim<V>>): Claim<V> -> bool { (c: Claim<V>) => IsSuperseded(kind, s, c) }

  lemma {:induction false} WithoutSame<T>(s: seq<T>, p: T -> bool, q: T -> bool, n: nat)
    requires forall x :: x in s ==> p(x) == q(x)
    ensures WithoutFirst(s, p, n) == WithoutFirst(s, q, n)
  {
    if s != [] && n > 0 {
      assert s[0] in s;
      WithoutSame(s[1..], p, q, if p(s[0]) then n - 1 else n);
    }
  }

  lemma {:induction false} WithoutOne<T>(s: seq<T>, i: nat, p: T -> bool, n: nat)
    requires i < |s| && p(s[i]) && n >= 1 && forall k :: 0 <= k < i ==> !p(s[k])
    ensures WithoutFirst(s, p, n) == WithoutFirst(Erase(s, i), p, n - 1)
  {
    if i == 0 {
      assert Erase(s, 0) == s[1..];
    } else {
      WithoutOne(s[1..], i - 1, p, n);
      assert Erase(s, i) == [s[0]] + Erase(s[1..], i - 1);
      if n == 1 {
        WithoutNone(Erase(s[1..], i - 1), p);
      }
    }
  }

  lemma WithoutNone<T>(s: seq<T>, p: T -> bool)
    ensures WithoutFirst(s, p, 0) == s
  {
  }

  /** The erasing loop drops exactly the oldest superseded entries, exactly as many as exceed the budget. */
  lemma {:induction false} ShrinkExactly<V(!new)>(kind: ClaimKind, s: seq<Claim<V>>, maxTotal: nat)
    requires Shrink(kind, s, maxTotal).Ok?
    ensures var r := Shrink(kind, s, maxTotal).value;
      && |r| == (if |s| > maxTotal then maxTotal else |s|)
      && r == WithoutFirst(s, Behind(kind, s), |s| - |r|)
    decreases |s|
  {
    hide IsSuperseded, Erase;
    if |s| > maxTotal {
      var i := FirstSuperseded(kind, s, 0);
      var t := Erase(s, i);
      ShrinkExactly(kind, t, maxTotal);
      WithoutOne(s, i, Behind(kind, s), |s| - maxTotal);
      forall c | c in t ensures Behind(kind, t)(c) == Behind(kind, s)(c) {
        EraseKeepsStatus(kind, s, i, c);
      }
      WithoutSame(t, Behind(kind, t), Behind(kind, s), |s| - maxTotal - 1);
    }
  }

  // ----- Both -----

  lemma ShrunkIsOrderly<V(!new)>(kind: ClaimKind, s: seq<Claim<V>>, maxTotal: nat)
    requires Orderly(s) && OneSubject(kind, s) && Shrink(kind, s, maxTotal).Ok?
    ensures Orderly(Shrink(kind, s, maxTotal).value)
  {
    hide Shrink, Orderly, OneSubject;
    ShrinkFaithful(kind, s, maxTotal, 0);
    FaithfulIsSubsequence(kind, s, Shrink(kind, s, maxTotal).value, 0);
    SubsequenceTidy(kind, Shrink(kind, s, maxTotal).value, s);
  }

  /**
   * A trim, in full: the total budget drops the oldest superseded entries in excess, and of what it leaves every series
   * keeps exactly its newest entries, in order and no more than the history allows. A list within both bounds stays.
   */
  lemma TrimExactly<V(!new)>(kind: ClaimKind, s: seq<Claim<V>>, maxTotal: nat, maxHistory: nat)
    requires Orderly(s) && OneSubject(kind, s) && TrimList(kind, s, maxTotal, maxHistory).Ok?
    ensures var r := TrimList(kind, s, maxTotal, maxHistory).value;
      var left := WithoutFirst(s, Behind(kind, s), if |s| > maxTotal then |s| - maxTotal else 0);
      && |r| <= maxTotal && Subsequence(r, left)
      && (forall a, k, o, e ::
            Filter(r, Stated<V>(a, k, o, e)) == Newest(Filter(left, Stated<V>(a, k, o, e)), maxHistory))
      && (|s| <= maxTotal && (forall a, k, o, e :: |Filter(s, Stated<V>(a, k, o, e))| <= maxHistory) ==> r == s)
  {
    hide Shrink, KeepRecent, Orderly, OneSubject, Filter, Subsequence, WithoutFirst;
    var left := Shrink(kind, s, maxTotal).value;
    ShrinkExactly(kind, s, maxTotal);
    ShrunkIsOrderly(kind, s, maxTotal);
    forall a, k, o, e
      ensures Filter(KeepRecent(left, maxHistory), Stated<V>(a, k, o, e))
           == Newest(Filter(left, Stated<V>(a, k, o, e)), maxHistory)
    {
      HistoryExactly(left, maxHistory, a, k, o, e);
    }
    KeptIsPart(left, maxHistory);
    if |s| <= maxTotal && forall a, k, o, e :: |Filter(s, Stated<V>(a, k, o, e))| <= maxHistory {
      WithoutNone(s, Behind(kind, s));
      HistoryUntouched(s, maxHistory);
    }
  }

  lemma KeptIsPart<V>(s: seq<Claim<V>>, maxHistory: nat)
    ensures Subsequence(KeepRecent(s, maxHistory), s) && |KeepRecent(s, maxHistory)| <= |s|
  {
    hide KeepRecent;
    var f := RecentPositions(s, maxHistory);
    var kept := KeepRecent(s, maxHistory);
    SubsequenceCount(kept, s);
    assert multiset(s) == multiset(kept) + (multiset(s) - multiset(kept));
  }
}
