/** Bounding the claim lists, src/registry.cpp:205-376. */
module Trim {
  // First entries a source itself revised are erased until the total fits; then each attribute keeps only its newest
  // entries per source epoch.

  import opened Bytes
  import opened Ordering
  import opened Consensus

  /** Which of the three lists is trimmed; they compare slightly different fields. */
  datatype ClaimKind = OfIdentity | OfModule | OfPort

  /** One attribute as one source epoch states it: the key of the per-attribute history. */
  predicate SameSeries<V>(a: Claim<V>, b: Claim<V>) {
    a.source == b.source && a.epoch == b.epoch && a.attr == b.attr && a.subkey == b.subkey
  }

  /** claim_is_superseded, declaration_is_superseded and the inline test for ports: what trimming asks. */
  predicate Supersedes<V>(kind: ClaimKind, other: Claim<V>, c: Claim<V>) {
    && SameSeries(other, c) && c.sequence < other.sequence
    && (kind != OfPort ==> other.incarnation == c.incarnation)
    && (kind == OfModule ==> other.moduleUid == c.moduleUid)
  }

  /** claim_shadowed and declaration_shadowed: what liveness asks. */
  predicate Shadows<V>(kind: ClaimKind, other: Claim<V>, c: Claim<V>) {
    && SameSeries(other, c) && c.sequence < other.sequence && other.incarnation == c.incarnation
    && (kind != OfIdentity ==> other.moduleUid == c.moduleUid && other.port == c.port)
  }

  predicate IsSuperseded<V>(kind: ClaimKind, s: seq<Claim<V>>, c: Claim<V>) {
    exists j :: 0 <= j < |s| && Supersedes(kind, s[j], c)
  }

  predicate Shadowed<V>(kind: ClaimKind, s: seq<Claim<V>>, c: Claim<V>) {
    exists j :: 0 <= j < |s| && Shadows(kind, s[j], c)
  }

  /** Every list of the registry holds entries of one subject, so both tests are the same there. */
  ghost predicate OneSubject<V>(kind: ClaimKind, s: seq<Claim<V>>) {
    forall i, j :: 0 <= i < |s| && 0 <= j < |s| && kind != OfIdentity ==>
      && s[i].moduleUid == s[j].moduleUid && s[i].port == s[j].port
      && (kind == OfPort ==> s[i].incarnation == s[j].incarnation)
  }

  /** Stored order follows publication order. */
  ghost predicate Orderly<V>(s: seq<Claim<V>>) {
    forall i, j :: 0 <= i < j < |s| ==>
      && s[i].sequence <= s[j].sequence && s[i].incarnation <= s[j].incarnation
      && (s[i].sequence == s[j].sequence ==> KeyOf(s[i]) != KeyOf(s[j]) && s[i].incarnation == s[j].incarnation)
  }

  // ----- The total budget -----

  function FirstSuperseded<V>(kind: ClaimKind, s: seq<Claim<V>>, from: nat): (i: nat)
    requires from <= |s|
    ensures from <= i <= |s|
    ensures i < |s| ==> IsSuperseded(kind, s, s[i])
    ensures forall k :: from <= k < i ==> !IsSuperseded(kind, s, s[k])
    decreases |s| - from
  {
    if from == |s| || IsSuperseded(kind, s, s[from]) then from else FirstSuperseded(kind, s, from + 1)
  }

  function Erase<T>(s: seq<T>, i: nat): (r: seq<T>)
    requires i < |s|
    ensures |r| == |s| - 1
  {
    s[..i] + s[i + 1..]
  }

  function Shrink<V>(kind: ClaimKind, s: seq<Claim<V>>, maxTotal: nat): (r: Result<seq<Claim<V>>>)
    ensures r.Ok? ==> |r.value| <= maxTotal
    decreases |s|
  {
    if |s| <= maxTotal then Ok(s)
    else
      var i := FirstSuperseded(kind, s, 0);
      if i == |s| then Err(CapacityExceeded) else Shrink(kind, Erase(s, i), maxTotal)
  }

  // ----- The per-attribute history -----

  /** Positions of the same series that are newer than position i; equal sequences go by position. */
  function Newer<V>(s: seq<Claim<V>>, i: nat): set<nat>
    requires i < |s|
  {
    set j: nat | 0 <= j < |s| && SameSeries(s[j], s[i]) && Earlier(s, i, j)
  }

  predicate Earlier<V>(s: seq<Claim<V>>, i: nat, j: nat) {
    && i < |s| && j < |s|
    && (s[i].sequence < s[j].sequence || (s[i].sequence == s[j].sequence && i < j))
  }

  predicate Recent<V>(s: seq<Claim<V>>, i: nat, maxHistory: nat)
    requires i < |s|
  {
    |Newer(s, i)| < maxHistory
  }

  function RecentUpTo<V>(s: seq<Claim<V>>, maxHistory: nat, n: nat): seq<Claim<V>>
    requires n <= |s|
  {
    if n == 0 then []
    else RecentUpTo(s, maxHistory, n - 1) + (if Recent(s, n - 1, maxHistory) then [s[n - 1]] else [])
  }

  function KeepRecent<V>(s: seq<Claim<V>>, maxHistory: nat): seq<Claim<V>> {
    RecentUpTo(s, maxHistory, |s|)
  }

  /** trim_claims and trim_declarations of a module record. */
  function TrimList<V>(kind: ClaimKind, s: seq<Claim<V>>, maxTotal: nat, maxHistory: nat): Result<seq<Claim<V>>> {
    var r :- Shrink(kind, s, maxTotal);
    Ok(KeepRecent(r, maxHistory))
  }

  // ----- Facts about one erasure -----

  lemma SupersedesTransitive<V>(kind: ClaimKind, a: Claim<V>, b: Claim<V>, c: Claim<V>)
    requires Supersedes(kind, a, b) && Supersedes(kind, b, c)
    ensures Supersedes(kind, a, c)
  {
  }

  /** Erasing a superseded entry changes nobody else's status. */
  lemma EraseKeepsStatus<V>(kind: ClaimKind, s: seq<Claim<V>>, i: nat, c: Claim<V>)
    requires i < |s| && IsSuperseded(kind, s, s[i])
    ensures IsSuperseded(kind, Erase(s, i), c) <==> IsSuperseded(kind, s, c)
  {
    var r := Erase(s, i);
    if IsSuperseded(kind, r, c) {
      var j :| 0 <= j < |r| && Supersedes(kind, r[j], c);
      assert r[j] == s[if j < i then j else j + 1];
    }
    if IsSuperseded(kind, s, c) {
      var j :| 0 <= j < |s| && Supersedes(kind, s[j], c);
      var k :| 0 <= k < |s| && Supersedes(kind, s[k], s[i]);
      if j == i {
        SupersedesTransitive(kind, s[k], s[i], c);
        assert r[if k < i then k else k - 1] == s[k];
      } else {
        assert r[if j < i then j else j - 1] == s[j];
      }
    }
  }

  function Standing<V>(kind: ClaimKind, s: seq<Claim<V>>): Claim<V> -> bool {
    (c: Claim<V>) => !IsSuperseded(kind, s, c)
  }

  lemma {:induction false} FilterSame<T>(s: seq<T>, p: T -> bool, q: T -> bool)
    requires forall x :: x in s ==> p(x) == q(x)
    ensures Filter(s, p) == Filter(s, q)
  {
    if s != [] {
      assert s == s[..|s| - 1] + [s[|s| - 1]];
      FilterSame(s[..|s| - 1], p, q);
    }
  }

  lemma FilterErase<T>(s: seq<T>, i: nat, p: T -> bool)
    requires i < |s| && !p(s[i])
    ensures Filter(Erase(s, i), p) == Filter(s, p)
  {
    hide Filter;
    assert s == (s[..i] + [s[i]]) + s[i + 1..];
    FilterAppend(s[..i], s[i + 1..], p);
    FilterAppend(s[..i] + [s[i]], s[i + 1..], p);
    FilterLast(s[..i], s[i], p);
  }

  lemma EraseKeepsStanding<V>(kind: ClaimKind, s: seq<Claim<V>>, i: nat)
    requires i < |s| && IsSuperseded(kind, s, s[i])
    ensures Filter(Erase(s, i), Standing(kind, Erase(s, i))) == Filter(s, Standing(kind, s))
  {
    hide Filter, IsSuperseded, Erase;
    forall c ensures IsSuperseded(kind, Erase(s, i), c) <==> IsSuperseded(kind, s, c) {
      EraseKeepsStatus(kind, s, i, c);
    }
    FilterSame(Erase(s, i), Standing(kind, Erase(s, i)), Standing(kind, s));
    FilterErase(s, i, Standing(kind, s));
  }

  lemma {:induction false} FilterAll<T>(s: seq<T>, p: T -> bool)
    requires forall x :: x in s ==> p(x)
    ensures Filter(s, p) == s
  {
    if s != [] {
      assert s == s[..|s| - 1] + [s[|s| - 1]];
      FilterAll(s[..|s| - 1], p);
    }
  }

  /** The budget fails exactly when the entries nobody superseded already exceed it. */
  lemma {:induction false} FailsExactly<V(!new)>(kind: ClaimKind, s: seq<Claim<V>>, maxTotal: nat)
    ensures Shrink(kind, s, maxTotal).Err? <==> |Filter(s, Standing(kind, s))| > maxTotal
    decreases |s|
  {
    hide Filter, IsSuperseded, Erase;
    if |s| > maxTotal {
      var i := FirstSuperseded(kind, s, 0);
      if i == |s| {
        FilterAll(s, Standing(kind, s));
      } else {
        EraseKeepsStanding(kind, s, i);
        FailsExactly(kind, Erase(s, i), maxTotal);
      }
    }
  }

  // ----- What trimming keeps -----

  ghost predicate Picks<T>(a: seq<T>, b: seq<T>, f: seq<nat>) {
    && |f| == |a|
    && (forall i :: 0 <= i < |f| ==> f[i] < |b| && a[i] == b[f[i]])
    && (forall i, j :: 0 <= i < j < |f| ==> f[i] < f[j])
  }

  /** The first sequence is the second with some entries left out. */
  ghost predicate Subsequence<T>(a: seq<T>, b: seq<T>) { exists f :: Picks(a, b, f) }

  lemma SubsequenceSelf<T>(a: seq<T>)
    ensures Subsequence(a, a)
  {
    var f := seq(|a|, (i: nat) => i);
    assert Picks(a, a, f);
  }

  lemma SubsequenceTransitive<T>(a: seq<T>, b: seq<T>, c: seq<T>)
    requires Subsequence(a, b) && Subsequence(b, c)
    ensures Subsequence(a, c)
  {
    var f :| Picks(a, b, f);
    var g :| Picks(b, c, g);
    var h := seq(|a|, i requires 0 <= i < |a| => g[f[i]]);
    assert Picks(a, c, h);
  }

  lemma SubsequenceErase<T>(s: seq<T>, i: nat)
    requires i < |s|
    ensures Subsequence(Erase(s, i), s)
  {
    var f := seq(|s| - 1, (k: nat) => if k < i then k else k + 1);
    assert Picks(Erase(s, i), s, f);
  }

  lemma {:induction false} SubsequenceCount<T>(a: seq<T>, b: seq<T>)
    requires Subsequence(a, b)
    ensures multiset(a) <= multiset(b)
  {
    if a != [] {
      var f :| Picks(a, b, f);
      var n := f[|a| - 1];
      assert Picks(a[..|a| - 1], b[..n], f[..|a| - 1]);
      SubsequenceCount(a[..|a| - 1], b[..n]);
      assert a == a[..|a| - 1] + [a[|a| - 1]];
      assert b == b[..n] + [b[n]] + b[n + 1..];
    }
  }

  lemma SubsequenceTidy<V>(kind: ClaimKind, a: seq<Claim<V>>, b: seq<Claim<V>>)
    requires Subsequence(a, b)
    ensures Orderly(b) ==> Orderly(a)
    ensures OneSubject(kind, b) ==> OneSubject(kind, a)
    ensures forall c :: c in a ==> c in b
  {
    var f :| Picks(a, b, f);
    if Orderly(b) {
      forall i, j | 0 <= i < j < |a|
        ensures a[i].sequence <= a[j].sequence && a[i].incarnation <= a[j].incarnation
        ensures a[i].sequence == a[j].sequence ==> KeyOf(a[i]) != KeyOf(a[j]) && a[i].incarnation == a[j].incarnation
      {
        assert f[i] < f[j];
        assert a[i] == b[f[i]] && a[j] == b[f[j]];
      }
    }
  }

  /** Which entries an answer about one incarnation looks at; ports have no incarnations. */
  predicate Selected<V>(kind: ClaimKind, c: Claim<V>, incarnation: nat) {
    kind == OfPort || c.incarnation == incarnation
  }

  /** Entries of one incarnation that no later entry of their own source revises. */
  function Unrevised<V>(kind: ClaimKind, s: seq<Claim<V>>, incarnation: nat): Claim<V> -> bool {
    (c: Claim<V>) => Selected(kind, c, incarnation) && !Shadowed(kind, s, c)
  }

  ghost predicate UpTo<V>(s: seq<Claim<V>>, incarnation: nat) {
    forall i :: 0 <= i < |s| ==> s[i].incarnation <= incarnation
  }

  /** What an answer can see of a list is the same before and after. */
  ghost predicate Faithful<V>(kind: ClaimKind, before: seq<Claim<V>>, after: seq<Claim<V>>, incarnation: nat) {
    && Subsequence(after, before)
    && (forall c :: c in after ==> (Shadowed(kind, after, c) <==> Shadowed(kind, before, c)))
    && Filter(after, Unrevised(kind, after, incarnation)) == Filter(before, Unrevised(kind, before, incarnation))
  }

  lemma SupersededIsShadowed<V>(kind: ClaimKind, s: seq<Claim<V>>, c: Claim<V>)
    requires OneSubject(kind, s) && c in s
    ensures IsSuperseded(kind, s, c) <==> Shadowed(kind, s, c)
  {
    var i :| 0 <= i < |s| && s[i] == c;
    if IsSuperseded(kind, s, c) {
      var j :| 0 <= j < |s| && Supersedes(kind, s[j], c);
      assert Shadows(kind, s[j], c);
    }
    if Shadowed(kind, s, c) {
      var j :| 0 <= j < |s| && Shadows(kind, s[j], c);
      assert Supersedes(kind, s[j], c);
    }
  }

  lemma EraseFaithful<V(!new)>(kind: ClaimKind, s: seq<Claim<V>>, i: nat, incarnation: nat)
    requires i < |s| && IsSuperseded(kind, s, s[i]) && OneSubject(kind, s)
    ensures Faithful(kind, s, Erase(s, i), incarnation)
  {
    hide IsSuperseded, Shadowed, Filter, OneSubject, Erase;
    var r := Erase(s, i);
    SubsequenceErase(s, i);
    SubsequenceTidy(kind, r, s);
    forall c | c in r ensures Shadowed(kind, r, c) <==> Shadowed(kind, s, c) {
      EraseKeepsStatus(kind, s, i, c);
      SupersededIsShadowed(kind, r, c);
      SupersededIsShadowed(kind, s, c);
    }
    SupersededIsShadowed(kind, s, s[i]);
    FilterSame(r, Unrevised(kind, r, incarnation), Unrevised(kind, s, incarnation));
    FilterErase(s, i, Unrevised(kind, s, incarnation));
  }

  lemma FaithfulSelf<V>(kind: ClaimKind, s: seq<Claim<V>>, incarnation: nat)
    ensures Faithful(kind, s, s, incarnation)
  {
    SubsequenceSelf(s);
  }

  lemma FaithfulTransitive<V>(kind: ClaimKind, a: seq<Claim<V>>, b: seq<Claim<V>>, c: seq<Claim<V>>, incarnation: nat)
    requires Faithful(kind, a, b, incarnation) && Faithful(kind, b, c, incarnation)
    ensures Faithful(kind, a, c, incarnation)
  {
    hide Shadowed, Filter;
    SubsequenceTransitive(c, b, a);
    SubsequenceTidy(kind, c, b);
  }

  lemma {:induction false} ShrinkFaithful<V(!new)>(kind: ClaimKind, s: seq<Claim<V>>, maxTotal: nat, incarnation: nat)
    requires OneSubject(kind, s) && Shrink(kind, s, maxTotal).Ok?
    ensures Faithful(kind, s, Shrink(kind, s, maxTotal).value, incarnation)
    decreases |s|
  {
    hide IsSuperseded, Faithful, OneSubject, Erase;
    if |s| <= maxTotal {
      FaithfulSelf(kind, s, incarnation);
    } else {
      var i := FirstSuperseded(kind, s, 0);
      EraseFaithful(kind, s, i, incarnation);
      SubsequenceErase(s, i);
      SubsequenceTidy(kind, Erase(s, i), s);
      ShrinkFaithful(kind, Erase(s, i), maxTotal, incarnation);
      FaithfulTransitive(kind, s, Erase(s, i), Shrink(kind, s, maxTotal).value, incarnation);
    }
  }

  // ----- The per-attribute history keeps it too -----

  lemma RecentNext<V>(s: seq<Claim<V>>, maxHistory: nat, n: nat)
    requires n < |s|
    ensures RecentUpTo(s, maxHistory, n + 1) ==
            if Recent(s, n, maxHistory) then RecentUpTo(s, maxHistory, n) + [s[n]] else RecentUpTo(s, maxHistory, n)
    ensures RecentUpTo(s, maxHistory, 0) == []
  {
    hide Recent;
    assert RecentUpTo(s, maxHistory, n) + [] == RecentUpTo(s, maxHistory, n);
  }

  lemma PicksMore<T>(a: seq<T>, b: seq<T>, f: seq<nat>, n: nat)
    requires Picks(a, b, f) && n < |b| && forall i :: i in f ==> i < n
    ensures Picks(a + [b[n]], b, f + [n])
  {
    assert forall i :: 0 <= i < |f| ==> f[i] in f;
  }

  /** The positions that stay. */
  function RecentIndices<V>(s: seq<Claim<V>>, maxHistory: nat, n: nat): (f: seq<nat>)
    requires n <= |s|
  {
    if n == 0 then []
    else if Recent(s, n - 1, maxHistory) then RecentIndices(s, maxHistory, n - 1) + [n - 1]
    else RecentIndices(s, maxHistory, n - 1)
  }

  lemma {:induction false} RecentIndicesAre<V>(s: seq<Claim<V>>, maxHistory: nat, n: nat, i: nat)
    requires n <= |s|
    ensures i in RecentIndices(s, maxHistory, n) <==> i < n && Recent(s, i, maxHistory)
  {
    hide Recent;
    if n > 0 {
      RecentIndicesAre(s, maxHistory, n - 1, i);
    }
  }

  lemma RecentStart<V>(s: seq<Claim<V>>, maxHistory: nat)
    ensures Picks(RecentUpTo(s, maxHistory, 0), s, RecentIndices(s, maxHistory, 0))
  {
  }

  lemma RecentIndicesNext<V>(s: seq<Claim<V>>, maxHistory: nat, n: nat)
    requires n < |s|
    ensures RecentIndices(s, maxHistory, n + 1) ==
            if Recent(s, n, maxHistory) then RecentIndices(s, maxHistory, n) + [n] else RecentIndices(s, maxHistory, n)
  {
    hide Recent;
  }

  lemma {:induction false} RecentPicks<V>(s: seq<Claim<V>>, maxHistory: nat, n: nat)
    requires n <= |s|
    ensures Picks(RecentUpTo(s, maxHistory, n), s, RecentIndices(s, maxHistory, n))
  {
    hide *;
    if n == 0 {
      RecentStart(s, maxHistory);
    } else {
      RecentPicks(s, maxHistory, n - 1);
      RecentNext(s, maxHistory, n - 1);
      RecentIndicesNext(s, maxHistory, n - 1);
      var f := RecentIndices(s, maxHistory, n - 1);
      forall i: nat | i in f ensures i < n - 1 {
        RecentIndicesAre(s, maxHistory, n - 1, i);
      }
      PicksMore(RecentUpTo(s, maxHistory, n - 1), s, f, n - 1);
    }
  }

  lemma RecentPositions<V>(s: seq<Claim<V>>, maxHistory: nat) returns (f: seq<nat>)
    ensures Picks(KeepRecent(s, maxHistory), s, f)
    ensures forall i: nat :: i in f <==> i < |s| && Recent(s, i, maxHistory)
  {
    hide Recent, Picks, RecentUpTo, RecentIndices;
    f := RecentIndices(s, maxHistory, |s|);
    RecentPicks(s, maxHistory, |s|);
    forall i: nat ensures i in f <==> i < |s| && Recent(s, i, maxHistory) {
      RecentIndicesAre(s, maxHistory, |s|, i);
    }
  }

  lemma {:induction false} RecentFilter<V>(s: seq<Claim<V>>, maxHistory: nat, n: nat, p: Claim<V> -> bool)
    requires n <= |s|
    requires forall i :: 0 <= i < n && p(s[i]) ==> Recent(s, i, maxHistory)
    ensures Filter(RecentUpTo(s, maxHistory, n), p) == Filter(s[..n], p)
  {
    hide Filter, Recent;
    if n > 0 {
      RecentFilter(s, maxHistory, n - 1, p);
      FilterLast(s[..n - 1], s[n - 1], p);
      FilterLast(RecentUpTo(s, maxHistory, n - 1), s[n - 1], p);
      assert s[..n] == s[..n - 1] + [s[n - 1]];
      var kept := RecentUpTo(s, maxHistory, n - 1);
      assert kept + [] == kept;
    }
  }

  lemma NewerIsFewer<V>(s: seq<Claim<V>>, i: nat, j: nat)
    requires i < |s| && j in Newer(s, i)
    ensures |Newer(s, j)| < |Newer(s, i)|
  {
    var a, b := Newer(s, j), Newer(s, i);
    assert a <= b - {j};
    SmallerSet(a, b - {j});
  }

  lemma {:induction false} SmallerSet<T>(a: set<T>, b: set<T>)
    requires a <= b
    ensures |a| <= |b|
  {
    if a != {} {
      var x :| x in a;
      SmallerSet(a - {x}, b - {x});
    }
  }

  lemma NewestOrShadowed<V>(kind: ClaimKind, s: seq<Claim<V>>, i: nat, incarnation: nat)
    requires OneSubject(kind, s) && Orderly(s) && UpTo(s, incarnation)
    requires i < |s| && Selected(kind, s[i], incarnation)
    ensures Newer(s, i) == {} || Shadowed(kind, s, s[i])
  {
    if Newer(s, i) != {} {
      var j :| j in Newer(s, i);
      assert SameSeries(s[j], s[i]) && Earlier(s, i, j);
      assert j > i;
      assert Shadows(kind, s[j], s[i]);
    }
  }

  lemma UnrevisedIsRecent<V>(kind: ClaimKind, s: seq<Claim<V>>, i: nat, maxHistory: nat, incarnation: nat)
    requires OneSubject(kind, s) && Orderly(s) && UpTo(s, incarnation) && maxHistory >= 1
    requires i < |s| && Unrevised(kind, s, incarnation)(s[i])
    ensures Recent(s, i, maxHistory)
  {
    NewestOrShadowed(kind, s, i, incarnation);
  }

  lemma RecentKeepsShadow<V>(kind: ClaimKind, s: seq<Claim<V>>, maxHistory: nat, c: Claim<V>)
    requires c in KeepRecent(s, maxHistory)
    ensures Shadowed(kind, KeepRecent(s, maxHistory), c) <==> Shadowed(kind, s, c)
  {
    hide Recent;
    var r := KeepRecent(s, maxHistory);
    var f := RecentPositions(s, maxHistory);
    var n :| 0 <= n < |r| && r[n] == c;
    assert f[n] in f;
    if Shadowed(kind, s, c) {
      var j :| 0 <= j < |s| && Shadows(kind, s[j], c);
      assert j in Newer(s, f[n]);
      NewerIsFewer(s, f[n], j);
      assert Recent(s, j, maxHistory) by {
        RecentMeans(s, f[n], j, maxHistory);
      }
      assert j in f;
      var m :| 0 <= m < |f| && f[m] == j;
      assert r[m] == s[j];
    }
    if Shadowed(kind, r, c) {
      var m :| 0 <= m < |r| && Shadows(kind, r[m], c);
      assert Shadows(kind, s[f[m]], c);
    }
  }

  lemma RecentMeans<V>(s: seq<Claim<V>>, i: nat, j: nat, maxHistory: nat)
    requires i < |s| && j < |s| && Recent(s, i, maxHistory) && |Newer(s, j)| < |Newer(s, i)|
    ensures Recent(s, j, maxHistory)
  {
  }

  lemma KeepRecentFaithful<V(!new)>(kind: ClaimKind, s: seq<Claim<V>>, maxHistory: nat, incarnation: nat)
    requires OneSubject(kind, s) && Orderly(s) && UpTo(s, incarnation) && maxHistory >= 1
    ensures Faithful(kind, s, KeepRecent(s, maxHistory), incarnation)
  {
    hide Recent, Shadowed, Filter, OneSubject, Orderly, UpTo;
    var r := KeepRecent(s, maxHistory);
    var f := RecentPositions(s, maxHistory);
    forall c | c in r ensures Shadowed(kind, r, c) <==> Shadowed(kind, s, c) {
      RecentKeepsShadow(kind, s, maxHistory, c);
    }
    FilterSame(r, Unrevised(kind, r, incarnation), Unrevised(kind, s, incarnation));
    forall i | 0 <= i < |s| && Unrevised(kind, s, incarnation)(s[i]) ensures Recent(s, i, maxHistory) {
      UnrevisedIsRecent(kind, s, i, maxHistory, incarnation);
    }
    RecentFilter(s, maxHistory, |s|, Unrevised(kind, s, incarnation));
    assert s[..|s|] == s;
  }

  /** A successful trim keeps everything the current incarnation's answers are made from. */
  lemma TrimFaithful<V(!new)>(kind: ClaimKind, s: seq<Claim<V>>, maxTotal: nat, maxHistory: nat, incarnation: nat)
    requires OneSubject(kind, s) && Orderly(s) && UpTo(s, incarnation) && maxHistory >= 1
    requires TrimList(kind, s, maxTotal, maxHistory).Ok?
    ensures Faithful(kind, s, TrimList(kind, s, maxTotal, maxHistory).value, incarnation)
  {
    hide Shrink, KeepRecent, Faithful, OneSubject, Orderly;
    var r := Shrink(kind, s, maxTotal).value;
    ShrinkFaithful(kind, s, maxTotal, incarnation);
    FaithfulIsSubsequence(kind, s, r, incarnation);
    SubsequenceTidy(kind, r, s);
    KeepRecentFaithful(kind, r, maxHistory, incarnation);
    FaithfulTransitive(kind, s, r, KeepRecent(r, maxHistory), incarnation);
  }

  lemma FaithfulIsSubsequence<V>(kind: ClaimKind, before: seq<Claim<V>>, after: seq<Claim<V>>, incarnation: nat)
    requires Faithful(kind, before, after, incarnation)
    ensures Subsequence(after, before)
  {
  }
}
