/** Orders and stable sorting, the properties of the standard-library sorts the source uses. */
module Ordering {
  import opened Bytes

  /** src/canonical.cpp `compare_bytes(a, b) < 0`: byte-lexicographic, unsigned. */
  predicate TextLess(a: Text, b: Text) {
    if b == [] then false
    else if a == [] then true
    else if a[0] != b[0] then a[0] < b[0]
    else TextLess(a[1..], b[1..])
  }

  lemma {:induction false} TextLessTotal(a: Text, b: Text)
    ensures !(TextLess(a, b) && TextLess(b, a))
    ensures a != b <==> TextLess(a, b) || TextLess(b, a)
  {
    if a != [] && b != [] {
      TextLessTotal(a[1..], b[1..]);
      assert a == [a[0]] + a[1..] && b == [b[0]] + b[1..];
    }
  }

  lemma {:induction false} TextLessTransitive(a: Text, b: Text, c: Text)
    requires TextLess(a, b) && TextLess(b, c)
    ensures TextLess(a, c)
  {
    if a != [] && a[0] == b[0] == c[0] {
      TextLessTransitive(a[1..], b[1..], c[1..]);
    }
  }

  ghost predicate Asymmetric<T(!new)>(less: (T, T) -> bool) {
    forall x, y :: less(x, y) ==> !less(y, x)
  }

  /** A strict weak order: what std::stable_sort and std::sort ask of their comparator. */
  ghost predicate WeakOrder<T(!new)>(less: (T, T) -> bool) {
    && Asymmetric(less)
    && (forall x, y, z :: !less(y, x) && !less(z, y) ==> !less(z, x))
  }

  ghost predicate Sorted<T>(s: seq<T>, less: (T, T) -> bool) {
    forall i, j :: 0 <= i < j < |s| ==> !less(s[j], s[i])
  }

  ghost predicate StrictlySorted<T>(s: seq<T>, less: (T, T) -> bool) {
    forall i, j :: 0 <= i < j < |s| ==> less(s[i], s[j])
  }

  /** Elements at different positions are never equivalent under the order. */
  ghost predicate Separated<T>(s: seq<T>, less: (T, T) -> bool) {
    forall i, j :: 0 <= i < j < |s| ==> less(s[i], s[j]) || less(s[j], s[i])
  }

  function Insert<T>(x: T, s: seq<T>, less: (T, T) -> bool): (r: seq<T>)
    ensures multiset(r) == multiset(s) + multiset{x}
    ensures |r| == |s| + 1
  {
    if s == [] || !less(s[0], x) then
      [x] + s
    else
      var t := Insert(x, s[1..], less);
      assert s == [s[0]] + s[1..];
      [s[0]] + t
  }

  /** Stable insertion sort. */
  function Sort<T>(s: seq<T>, less: (T, T) -> bool): (r: seq<T>)
    ensures multiset(r) == multiset(s)
    ensures |r| == |s|
  {
    if s == [] then []
    else
      assert s == [s[0]] + s[1..];
      Insert(s[0], Sort(s[1..], less), less)
  }

  lemma {:induction false} InsertSorted<T(!new)>(x: T, s: seq<T>, less: (T, T) -> bool)
    requires WeakOrder(less) && Sorted(s, less)
    ensures Sorted(Insert(x, s, less), less)
  {
    if s == [] {
    } else if !less(s[0], x) {
      var r := [x] + s;
      forall i, j | 0 <= i < j < |r| ensures !less(r[j], r[i]) {
        if i == 0 {
          assert !less(s[j - 1], s[0]);
        } else {
          assert !less(s[j - 1], s[i - 1]);
        }
      }
    } else {
      var t := Insert(x, s[1..], less);
      InsertSorted(x, s[1..], less);
      forall k | 0 <= k < |t| ensures !less(t[k], s[0]) {
        assert t[k] in multiset(t);
        assert t[k] == x || t[k] in s[1..];
      }
    }
  }

  lemma {:induction false} SortSorted<T(!new)>(s: seq<T>, less: (T, T) -> bool)
    requires WeakOrder(less)
    ensures Sorted(Sort(s, less), less)
  {
    if s != [] {
      SortSorted(s[1..], less);
      InsertSorted(s[0], Sort(s[1..], less), less);
    }
  }

  lemma {:induction false} InsertFirst<T>(x: T, s: seq<T>, less: (T, T) -> bool)
    requires forall y :: y in s ==> !less(y, x)
    ensures Insert(x, s, less) == [x] + s
  {
    if s != [] {
      assert s[0] in s;
    }
  }

  /** Sorting something already in order changes nothing. */
  lemma {:induction false} SortIdentity<T>(s: seq<T>, less: (T, T) -> bool)
    requires Sorted(s, less)
    ensures Sort(s, less) == s
  {
    if s != [] {
      SortIdentity(s[1..], less);
      InsertFirst(s[0], s[1..], less);
      assert s == [s[0]] + s[1..];
    }
  }

  lemma HeadIsLeast<T>(s: seq<T>, i: nat, less: (T, T) -> bool)
    requires i < |s| && StrictlySorted(s, less)
    ensures i == 0 || less(s[0], s[i])
  {
  }

  lemma TailElements<T>(s: seq<T>)
    requires s != []
    ensures multiset(s[1..]) == multiset(s) - multiset{s[0]}
    ensures |multiset(s)| == |s|
  {
    assert s == [s[0]] + s[1..];
  }

  lemma SameHead<T(!new)>(a: seq<T>, b: seq<T>, less: (T, T) -> bool)
    requires Asymmetric(less)
    requires multiset(a) == multiset(b) && a != [] && b != []
    requires StrictlySorted(a, less) && StrictlySorted(b, less)
    ensures a[0] == b[0]
  {
    assert a[0] in multiset(b) && b[0] in multiset(a);
    var i :| 0 <= i < |b| && b[i] == a[0];
    var j :| 0 <= j < |a| && a[j] == b[0];
    HeadIsLeast(b, i, less);
    HeadIsLeast(a, j, less);
  }

  /** Two strictly sorted arrangements of the same elements are the same sequence. */
  lemma {:induction false} StrictlySortedUnique<T(!new)>(a: seq<T>, b: seq<T>, less: (T, T) -> bool)
    requires Asymmetric(less)
    requires multiset(a) == multiset(b)
    requires StrictlySorted(a, less) && StrictlySorted(b, less)
    ensures a == b
  {
    assert |multiset(a)| == |a| && |multiset(b)| == |b|;
    if a != [] {
      SameHead(a, b, less);
      TailElements(a);
      TailElements(b);
      StrictlySortedUnique(a[1..], b[1..], less);
      assert a == [a[0]] + a[1..] && b == [b[0]] + b[1..];
    }
  }

  lemma {:induction false} SeparatedStrict<T(!new)>(s: seq<T>, less: (T, T) -> bool)
    requires WeakOrder(less) && Sorted(s, less)
    requires forall x, y :: x in s && y in s && x != y ==> less(x, y) || less(y, x)
    requires forall x :: x in multiset(s) ==> multiset(s)[x] == 1
    ensures StrictlySorted(s, less)
  {
    forall i, j | 0 <= i < j < |s| ensures less(s[i], s[j]) {
      Repeated(s, i, j);
    }
  }

  lemma Repeated<T>(s: seq<T>, i: nat, j: nat)
    requires i < j < |s|
    ensures s[i] in multiset(s)
    ensures s[i] == s[j] ==> multiset(s)[s[i]] >= 2
  {
    assert s == s[..j] + [s[j]] + s[j + 1..];
    assert s[..j] == s[..i] + [s[i]] + s[i + 1..j];
  }

  /** With no two equivalent elements the result of a sort depends only on what is sorted. */
  lemma SortCanonical<T(!new)>(a: seq<T>, b: seq<T>, less: (T, T) -> bool)
    requires WeakOrder(less)
    requires multiset(a) == multiset(b)
    requires forall x, y :: x in a && y in a && x != y ==> less(x, y) || less(y, x)
    requires forall x :: x in multiset(a) ==> multiset(a)[x] == 1
    ensures Sort(a, less) == Sort(b, less)
    ensures StrictlySorted(Sort(a, less), less)
  {
    var u, v := Sort(a, less), Sort(b, less);
    SortSorted(a, less);
    SortSorted(b, less);
    assert forall x :: x in u ==> x in multiset(u) ==> x in a;
    assert forall x :: x in v ==> x in multiset(v) ==> x in multiset(a) ==> x in a;
    SeparatedStrict(u, less);
    SeparatedStrict(v, less);
    StrictlySortedUnique(u, v, less);
  }

  function Least(s: set<nat>): (x: nat)
    requires s != {}
    ensures x in s && forall y :: y in s ==> x <= y
  {
    LeastExists(s);
    var x: nat :| x in s && forall y :: y in s ==> x <= y;
    x
  }

  lemma LeastExists(s: set<nat>)
    requires s != {}
    ensures exists x: nat :: x in s && forall y :: y in s ==> x <= y
  {
    var x := FindLeast(s);
  }

  lemma {:induction false} FindLeast(s: set<nat>) returns (x: nat)
    requires s != {}
    ensures x in s && forall y :: y in s ==> x <= y
    decreases s
  {
    var a: nat :| a in s;
    var rest := s - {a};
    assert forall y :: y in s ==> y == a || y in rest;
    x := a;
    if rest != {} {
      var b := FindLeast(rest);
      x := if a < b then a else b;
    }
  }

  /** The iteration order of a std::map or std::set keyed by integers. */
  function Ascending(s: set<nat>): (r: seq<nat>)
    ensures forall x :: x in r <==> x in s
    ensures forall i, j :: 0 <= i < j < |r| ==> r[i] < r[j]
    ensures |r| == |s|
  {
    if s == {} then []
    else
      var x := Least(s);
      var t := Ascending(s - {x});
      assert forall y :: y in [x] + t <==> y in s;
      [x] + t
  }

  function Filter<T>(s: seq<T>, p: T -> bool): (r: seq<T>)
    ensures |r| <= |s|
    ensures forall x :: x in r ==> x in s && p(x)
    ensures forall x :: x in s && p(x) ==> x in r
  {
    if s == [] then []
    else
      assert s == s[..|s| - 1] + [s[|s| - 1]];
      var front := Filter(s[..|s| - 1], p);
      if p(s[|s| - 1]) then front + [s[|s| - 1]] else front
  }

  lemma FilterLast<T>(front: seq<T>, x: T, p: T -> bool)
    ensures Filter(front + [x], p) == if p(x) then Filter(front, p) + [x] else Filter(front, p)
    ensures Filter<T>([], p) == []
  {
    assert (front + [x])[..|front|] == front;
  }

  lemma FilterNone<T>(p: T -> bool)
    ensures Filter<T>([], p) == []
  {
  }

  lemma {:induction false} FilterAppend<T>(a: seq<T>, b: seq<T>, p: T -> bool)
    ensures Filter(a + b, p) == Filter(a, p) + Filter(b, p)
  {
    hide Filter;
    if b == [] {
      assert a + b == a;
      assert Filter(b, p) == [];
    } else {
      var front, x := b[..|b| - 1], b[|b| - 1];
      FilterAppend(a, front, p);
      FilterLast(a + front, x, p);
      FilterLast(front, x, p);
      assert a + b == (a + front) + [x] && b == front + [x];
    }
  }

  /** Filtering keeps the multiplicity of what passes and removes everything else. */
  lemma {:induction false} FilterCount<T>(s: seq<T>, p: T -> bool, x: T)
    ensures multiset(Filter(s, p))[x] == if p(x) then multiset(s)[x] else 0
  {
    if s != [] {
      assert s == s[..|s| - 1] + [s[|s| - 1]];
      FilterCount(s[..|s| - 1], p, x);
    }
  }

  lemma FilterPermutation<T(!new)>(a: seq<T>, b: seq<T>, p: T -> bool)
    requires multiset(a) == multiset(b)
    ensures multiset(Filter(a, p)) == multiset(Filter(b, p))
  {
    forall x: T ensures multiset(Filter(a, p))[x] == multiset(Filter(b, p))[x] {
      FilterCount(a, p, x);
      FilterCount(b, p, x);
    }
  }

  /** Insertion into a std::set or the keys of a std::map, kept in order. */
  function InsertUnique<T(==)>(x: T, s: seq<T>, less: (T, T) -> bool): (r: seq<T>)
    ensures x in r
    ensures forall y :: y in s ==> y in r
    ensures forall y :: y in r ==> y == x || y in s
  {
    if s == [] then [x]
    else if s[0] == x then s
    else if less(x, s[0]) then [x] + s
    else [s[0]] + InsertUnique(x, s[1..], less)
  }

  ghost predicate TotalOrder<T(!new)>(less: (T, T) -> bool) {
    && Asymmetric(less)
    && (forall x, y :: x == y || less(x, y) || less(y, x))
    && (forall x, y, z :: less(x, y) && less(y, z) ==> less(x, z))
  }

  lemma {:induction false} InsertUniqueSorted<T(!new)>(x: T, s: seq<T>, less: (T, T) -> bool)
    requires TotalOrder(less) && StrictlySorted(s, less)
    ensures StrictlySorted(InsertUnique(x, s, less), less)
  {
    if s != [] && s[0] != x && !less(x, s[0]) {
      InsertUniqueSorted(x, s[1..], less);
      var t := InsertUnique(x, s[1..], less);
      forall k | 0 <= k < |t| ensures less(s[0], t[k]) {
        assert t[k] in t;
      }
    }
  }

  /** Strictly sorted sequences are determined by the set of their elements. */
  lemma {:induction false} StrictSetUnique<T(!new)>(a: seq<T>, b: seq<T>, less: (T, T) -> bool)
    requires Asymmetric(less)
    requires StrictlySorted(a, less) && StrictlySorted(b, less)
    requires forall x :: x in a <==> x in b
    ensures a == b
  {
    StrictOnce(a, less);
    StrictOnce(b, less);
    forall x: T ensures multiset(a)[x] == multiset(b)[x] {
      assert x in a <==> x in b;
    }
    StrictlySortedUnique(a, b, less);
  }

  lemma {:induction false} StrictOnce<T(!new)>(s: seq<T>, less: (T, T) -> bool)
    requires Asymmetric(less) && StrictlySorted(s, less)
    ensures forall x :: multiset(s)[x] == if x in s then 1 else 0
  {
    if s != [] {
      StrictOnce(s[1..], less);
      assert s == [s[0]] + s[1..];
      assert s[0] !in s[1..];
    }
  }
}
