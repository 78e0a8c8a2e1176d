/** Object construction and lookup of src/canonical.cpp. */
module ObjectValue {
  // `Value::object` sorts its members stably and keeps the first of each key; `Value::find` searches what is sorted.

  import opened Bytes
  import opened Ordering
  import opened Canonical

  predicate ByKey(a: Member, b: Member) {
    TextLess(a.key, b.key)
  }

  lemma ByKeyWeakOrder()
    ensures WeakOrder(ByKey)
  {
    forall x: Member, y: Member ensures ByKey(x, y) ==> !ByKey(y, x) {
      TextLessTotal(x.key, y.key);
    }
    forall x: Member, y: Member, z: Member | !ByKey(y, x) && !ByKey(z, y) ensures !ByKey(z, x) {
      TextLessTotal(x.key, y.key);
      TextLessTotal(y.key, z.key);
      TextLessTotal(x.key, z.key);
      if ByKey(z, x) {
        if x.key == y.key || y.key == z.key {
        } else {
          TextLessTransitive(z.key, x.key, y.key);
        }
      }
    }
  }

  /** std::unique on the keys: of neighbours with one key, the first stays. */
  function DropRepeats(ms: seq<Member>): seq<Member>
    decreases |ms|
  {
    if |ms| <= 1 then ms
    else if ms[0].key == ms[1].key then DropRepeats([ms[0]] + ms[2..])
    else [ms[0]] + DropRepeats(ms[1..])
  }

  function MakeObject(ms: seq<Member>): Value {
    Object(DropRepeats(Sort(ms, ByKey)))
  }

  /** The first member that carries `key`. */
  function FirstWithKey(ms: seq<Member>, key: Text): Option<Member> {
    if ms == [] then None
    else if ms[0].key == key then Some(ms[0])
    else FirstWithKey(ms[1..], key)
  }

  lemma {:induction false} InsertKeepsFirst(x: Member, ms: seq<Member>, key: Text)
    ensures FirstWithKey(Insert(x, ms, ByKey), key) == FirstWithKey([x] + ms, key)
  {
    assert ([x] + ms)[1..] == ms;
    if ms != [] && ByKey(ms[0], x) {
      TextLessTotal(ms[0].key, x.key);
      InsertKeepsFirst(x, ms[1..], key);
      assert ([x] + ms[1..])[1..] == ms[1..];
    }
  }

  lemma {:induction false} SortKeepsFirst(ms: seq<Member>, key: Text)
    ensures FirstWithKey(Sort(ms, ByKey), key) == FirstWithKey(ms, key)
  {
    if ms != [] {
      var tail := Sort(ms[1..], ByKey);
      SortKeepsFirst(ms[1..], key);
      InsertKeepsFirst(ms[0], tail, key);
      assert ([ms[0]] + tail)[1..] == tail;
    }
  }

  lemma {:induction false} DropKeepsFirst(ms: seq<Member>, key: Text)
    ensures FirstWithKey(DropRepeats(ms), key) == FirstWithKey(ms, key)
    decreases |ms|
  {
    if |ms| > 1 {
      if ms[0].key == ms[1].key {
        DropKeepsFirst([ms[0]] + ms[2..], key);
        assert ([ms[0]] + ms[2..])[1..] == ms[1..][1..];
      } else {
        DropKeepsFirst(ms[1..], key);
        assert ([ms[0]] + DropRepeats(ms[1..]))[1..] == DropRepeats(ms[1..]);
      }
    }
  }

  lemma {:induction false} DropAscends(ms: seq<Member>)
    requires Sorted(ms, ByKey)
    ensures KeysAscend(DropRepeats(ms))
    ensures forall m :: m in DropRepeats(ms) ==> m in ms
    ensures ms != [] ==> DropRepeats(ms) != [] && DropRepeats(ms)[0] == ms[0]
    decreases |ms|
  {
    if |ms| > 1 {
      if ms[0].key == ms[1].key {
        var shorter := [ms[0]] + ms[2..];
        forall i, j | 0 <= i < j < |shorter| ensures !ByKey(shorter[j], shorter[i]) {
          assert shorter[j] == ms[j + 1] && (i > 0 ==> shorter[i] == ms[i + 1]);
        }
        DropAscends(shorter);
      } else {
        DropAscends(ms[1..]);
        var tail := DropRepeats(ms[1..]);
        TextLessTotal(ms[0].key, ms[1].key);
        assert !ByKey(ms[1], ms[0]);
        forall m | m in tail ensures TextLess(ms[0].key, m.key) {
          var j :| 0 <= j < |tail| && tail[j] == m;
          if j > 0 {
            TextLessTransitive(ms[0].key, ms[1].key, m.key);
          }
        }
      }
    }
  }

  /** `Value::object` gives ascending unique keys and keeps, for every key, the value given first. */
  lemma MakeObjectCanonical(ms: seq<Member>, key: Text)
    ensures KeysAscend(MakeObject(ms).members)
    ensures FirstWithKey(MakeObject(ms).members, key) == FirstWithKey(ms, key)
  {
    ByKeyWeakOrder();
    SortSorted(ms, ByKey);
    DropAscends(Sort(ms, ByKey));
    DropKeepsFirst(Sort(ms, ByKey), key);
    SortKeepsFirst(ms, key);
  }

  predicate DistinctKeys(ms: seq<Member>) {
    forall i, j :: 0 <= i < j < |ms| ==> ms[i].key != ms[j].key
  }

  lemma {:induction false} DistinctOnce(ms: seq<Member>)
    requires DistinctKeys(ms)
    ensures forall m :: m in multiset(ms) ==> multiset(ms)[m] == 1
  {
    if ms != [] {
      DistinctOnce(ms[1..]);
      assert ms == [ms[0]] + ms[1..];
      assert ms[0] !in ms[1..];
    }
  }

  /** The order in which members are supplied never shows in the encoding. */
  lemma InsertionOrderIrrelevant(a: seq<Member>, b: seq<Member>)
    requires multiset(a) == multiset(b) && DistinctKeys(a)
    ensures Emit(MakeObject(a)) == Emit(MakeObject(b))
  {
    ByKeyWeakOrder();
    DistinctOnce(a);
    forall x, y | x in a && y in a && x != y ensures ByKey(x, y) || ByKey(y, x) {
      TextLessTotal(x.key, y.key);
    }
    SortCanonical(a, b, ByKey);
  }

  /** `Value::find`: lower_bound, then an equality test. */
  function Find(ms: seq<Member>, key: Text): Option<Value> {
    var at := LowerBound(ms, key);
    if at == |ms| || ms[at].key != key then None else Some(ms[at].value)
  }

  lemma {:induction false} FindExact(ms: seq<Member>, key: Text, value: Value)
    requires KeysAscend(ms)
    ensures Find(ms, key) == Some(value) <==> Member(key, value) in ms
  {
    if ms != [] {
      TextLessTotal(ms[0].key, key);
      FindExact(ms[1..], key, value);
      assert ms == [ms[0]] + ms[1..];
      forall m | m in ms[1..] && !TextLess(ms[0].key, key) ensures m.key != key {
        TextLessTotal(m.key, key);
      }
    }
  }
}
