/** Multi-source consensus, src/identity.cpp:60-137 and src/capability.cpp:857-950. */
module Consensus {
  // The two functions are one algorithm over different value types, so the value type is a parameter here.

  import opened Bytes
  import opened Provenances
  import opened Ordering

  /** IdentityClaim, CapabilityDeclaration and port declarations: one value a source published. */
  datatype Claim<V> = Claim(
    attr: nat, subkey: Text, value: V,
    source: nat, epoch: nat, moduleUid: nat, incarnation: nat, port: Text,
    generation: nat, sequence: nat, wallNs: int, provenance: Provenance, live: bool)

  datatype GroupKey = GroupKey(attr: nat, subkey: Text)

  datatype Outcome = Unknown | Superseded | SingleSource | Agreed | Conflicting

  datatype Group<V> = Group(key: GroupKey, outcome: Outcome, value: Option<V>,
                            claims: seq<Claim<V>>, superseded: seq<Claim<V>>)

  /** The running lists of the newest-per-source loop. */
  datatype Revision<V> = Revision(newest: seq<Claim<V>>, revised: seq<Claim<V>>)

  function KeyOf<V>(c: Claim<V>): GroupKey { GroupKey(c.attr, c.subkey) }

  /** Order of std::pair<uint8_t, std::string>. */
  predicate KeyLess(a: GroupKey, b: GroupKey) {
    a.attr < b.attr || (a.attr == b.attr && TextLess(a.subkey, b.subkey))
  }

  predicate BySequence<V>(a: Claim<V>, b: Claim<V>) { a.sequence < b.sequence }

  predicate IsLive<V>(c: Claim<V>) { c.live }

  predicate IsDead<V>(c: Claim<V>) { !c.live }

  predicate SameOrigin<V>(a: Claim<V>, b: Claim<V>) { a.source == b.source && a.epoch == b.epoch }

  function HasKey<V>(k: GroupKey): Claim<V> -> bool { (c: Claim<V>) => KeyOf(c) == k }

  function Keys<V>(claims: seq<Claim<V>>): seq<GroupKey> {
    if claims == [] then []
    else InsertUnique(KeyOf(claims[|claims| - 1]), Keys(claims[..|claims| - 1]), KeyLess)
  }

  function Members<V>(claims: seq<Claim<V>>, k: GroupKey): seq<Claim<V>> {
    Filter(claims, HasKey(k))
  }

  /** std::find_if over the newest list: the first entry of the same source and epoch. */
  function FindOrigin<V>(newest: seq<Claim<V>>, c: Claim<V>): (i: nat)
    ensures i <= |newest|
    ensures i < |newest| ==> SameOrigin(newest[i], c)
    ensures forall j :: 0 <= j < i ==> !SameOrigin(newest[j], c)
  {
    if newest == [] || SameOrigin(newest[0], c) then 0 else 1 + FindOrigin(newest[1..], c)
  }

  function ReviseWith<V>(r: Revision<V>, c: Claim<V>): Revision<V> {
    var i := FindOrigin(r.newest, c);
    if i == |r.newest| then Revision(r.newest + [c], r.revised)
    else Revision(r.newest[i := c], r.revised + [r.newest[i]])
  }

  function Revise<V>(live: seq<Claim<V>>): Revision<V> {
    if live == [] then Revision([], [])
    else ReviseWith(Revise(live[..|live| - 1]), live[|live| - 1])
  }

  function SortedLive<V>(members: seq<Claim<V>>): seq<Claim<V>> {
    Sort(Filter(members, IsLive), BySequence)
  }

  function SortedDead<V>(members: seq<Claim<V>>): seq<Claim<V>> {
    Sort(Filter(members, IsDead), BySequence)
  }

  function NewestOf<V>(members: seq<Claim<V>>): seq<Claim<V>> {
    Revise(SortedLive(members)).newest
  }

  function SupersededOf<V>(members: seq<Claim<V>>): seq<Claim<V>> {
    Sort(SortedDead(members) + Revise(SortedLive(members)).revised, BySequence)
  }

  /** Every listed value is the one in front. */
  predicate AllAgree<V(==)>(newest: seq<Claim<V>>) {
    forall i :: 0 < i < |newest| ==> newest[i].value == newest[0].value
  }

  function OutcomeOf<V(==)>(newest: seq<Claim<V>>, superseded: seq<Claim<V>>): Outcome {
    if newest == [] then (if superseded == [] then Unknown else Superseded)
    else if |newest| == 1 then SingleSource
    else if AllAgree(newest) then Agreed
    else Conflicting
  }

  function ValueOf<V(==)>(newest: seq<Claim<V>>): Option<V> {
    if newest != [] && AllAgree(newest) then Some(newest[0].value) else None
  }

  function GroupOf<V(==)>(claims: seq<Claim<V>>, k: GroupKey): Group<V> {
    var members := Members(claims, k);
    var newest := NewestOf(members);
    var superseded := SupersededOf(members);
    Group(k, OutcomeOf(newest, superseded), ValueOf(newest), newest, superseded)
  }

  function GroupsFor<V(==)>(claims: seq<Claim<V>>, keys: seq<GroupKey>): (r: seq<Group<V>>)
    ensures |r| == |keys|
  {
    if keys == [] then []
    else GroupsFor(claims, keys[..|keys| - 1]) + [GroupOf(claims, keys[|keys| - 1])]
  }

  function Build<V(==)>(claims: seq<Claim<V>>): seq<Group<V>> {
    GroupsFor(claims, Keys(claims))
  }

  // ----- Orders -----

  lemma KeyOrder()
    ensures TotalOrder(KeyLess)
  {
    forall x: GroupKey, y: GroupKey
      ensures x == y || KeyLess(x, y) || KeyLess(y, x)
      ensures KeyLess(x, y) ==> !KeyLess(y, x)
    {
      TextLessTotal(x.subkey, y.subkey);
    }
    forall x: GroupKey, y: GroupKey, z: GroupKey | KeyLess(x, y) && KeyLess(y, z) ensures KeyLess(x, z) {
      if x.attr == y.attr == z.attr {
        TextLessTransitive(x.subkey, y.subkey, z.subkey);
      }
    }
  }

  lemma SequenceOrder<V(!new)>()
    ensures WeakOrder<Claim<V>>(BySequence)
  {
  }

  lemma {:induction false} KeysOrdered<V>(claims: seq<Claim<V>>)
    ensures StrictlySorted(Keys(claims), KeyLess)
    ensures forall k :: k in Keys(claims) <==> exists i :: 0 <= i < |claims| && KeyOf(claims[i]) == k
  {
    if claims != [] {
      var front := claims[..|claims| - 1];
      var x := claims[|claims| - 1];
      KeysOrdered(front);
      KeyOrder();
      InsertUniqueSorted(KeyOf(x), Keys(front), KeyLess);
      forall k | k in Keys(claims) ensures exists i :: 0 <= i < |claims| && KeyOf(claims[i]) == k {
        if k == KeyOf(x) {
          assert KeyOf(claims[|claims| - 1]) == k;
        } else {
          assert k in Keys(front);
          var i :| 0 <= i < |front| && KeyOf(front[i]) == k;
          assert KeyOf(claims[i]) == k;
        }
      }
      forall i | 0 <= i < |claims| ensures KeyOf(claims[i]) in Keys(claims) {
        if i < |front| {
          assert KeyOf(front[i]) in Keys(front);
        }
      }
    }
  }

  // ----- Nothing is lost or merged -----

  lemma ReviseLast<V>(front: seq<Claim<V>>, c: Claim<V>)
    ensures Revise(front + [c]) == ReviseWith(Revise(front), c)
  {
    assert (front + [c])[..|front|] == front;
  }

  lemma ReviseWithKeeps<V(!new)>(r: Revision<V>, c: Claim<V>)
    ensures multiset(ReviseWith(r, c).newest) + multiset(ReviseWith(r, c).revised)
         == multiset(r.newest) + multiset(r.revised) + multiset{c}
  {
    var i := FindOrigin(r.newest, c);
    if i < |r.newest| {
      var n := r.newest;
      assert n == n[..i] + [n[i]] + n[i + 1..];
      assert n[i := c] == n[..i] + [c] + n[i + 1..];
    }
  }

  lemma {:induction false} ReviseKeeps<V(!new)>(live: seq<Claim<V>>)
    ensures multiset(Revise(live).newest) + multiset(Revise(live).revised) == multiset(live)
  {
    hide ReviseWith, FindOrigin;
    if live != [] {
      var front := live[..|live| - 1];
      ReviseKeeps(front);
      ReviseWithKeeps(Revise(front), live[|live| - 1]);
      assert live == front + [live[|live| - 1]];
    }
  }

  lemma SplitKeeps<V(!new)>(members: seq<Claim<V>>)
    ensures multiset(Filter(members, IsLive)) + multiset(Filter(members, IsDead)) == multiset(members)
  {
    hide Filter;
    forall c: Claim<V>
      ensures (multiset(Filter(members, IsLive)) + multiset(Filter(members, IsDead)))[c] == multiset(members)[c]
    {
      FilterCount(members, IsLive, c);
      FilterCount(members, IsDead, c);
    }
  }

  lemma GroupKeeps<V(!new)>(members: seq<Claim<V>>)
    ensures multiset(NewestOf(members)) + multiset(SupersededOf(members)) == multiset(members)
  {
    hide Filter, Revise, Sort;
    SplitKeeps(members);
    ReviseKeeps(SortedLive(members));
  }

  function Entries<V>(groups: seq<Group<V>>): seq<Claim<V>> {
    if groups == [] then []
    else
      var g := groups[|groups| - 1];
      Entries(groups[..|groups| - 1]) + g.claims + g.superseded
  }

  lemma EntriesLast<V>(front: seq<Group<V>>, g: Group<V>)
    ensures Entries(front + [g]) == Entries(front) + g.claims + g.superseded
  {
    assert (front + [g])[..|front|] == front;
  }

  lemma GroupCount<V(!new)>(claims: seq<Claim<V>>, k: GroupKey, c: Claim<V>)
    ensures multiset(GroupOf(claims, k).claims + GroupOf(claims, k).superseded)[c]
         == if KeyOf(c) == k then multiset(claims)[c] else 0
  {
    hide Filter, NewestOf, SupersededOf, OutcomeOf, ValueOf;
    GroupKeeps(Members(claims, k));
    FilterCount(claims, HasKey(k), c);
    assert multiset(NewestOf(Members(claims, k)) + SupersededOf(Members(claims, k)))
        == multiset(Members(claims, k));
  }

  lemma {:induction false} GroupsCount<V(!new)>(claims: seq<Claim<V>>, keys: seq<GroupKey>, c: Claim<V>)
    requires StrictlySorted(keys, KeyLess)
    ensures multiset(Entries(GroupsFor(claims, keys)))[c]
         == if KeyOf(c) in keys then multiset(claims)[c] else 0
  {
    hide GroupOf, Entries, KeyOf;
    if keys == [] {
      EntriesEmpty<V>();
    } else {
      var front, k := keys[..|keys| - 1], keys[|keys| - 1];
      GroupsCount(claims, front, c);
      GroupCount(claims, k, c);
      EntriesLast(GroupsFor(claims, front), GroupOf(claims, k));
      var e, g := Entries(GroupsFor(claims, front)), GroupOf(claims, k);
      assert e + g.claims + g.superseded == e + (g.claims + g.superseded);
      assert keys == front + [k];
      LastKeyIsNew(keys);
    }
  }

  lemma EntriesEmpty<V>()
    ensures Entries<V>([]) == []
  {
  }

  lemma LastKeyIsNew(keys: seq<GroupKey>)
    requires keys != [] && StrictlySorted(keys, KeyLess)
    ensures keys[|keys| - 1] !in keys[..|keys| - 1]
  {
    KeyOrder();
    forall i | 0 <= i < |keys| - 1 ensures keys[i] != keys[|keys| - 1] {
      assert KeyLess(keys[i], keys[|keys| - 1]);
    }
  }

  /** Over all groups, live plus superseded entries are a permutation of what came in. */
  lemma NothingLost<V(!new)>(claims: seq<Claim<V>>)
    ensures multiset(Entries(Build(claims))) == multiset(claims)
  {
    hide Entries, GroupsFor, Keys;
    KeysOrdered(claims);
    forall c: Claim<V> ensures multiset(Entries(Build(claims)))[c] == multiset(claims)[c] {
      GroupsCount(claims, Keys(claims), c);
      if c in claims {
        var i :| 0 <= i < |claims| && claims[i] == c;
        assert KeyOf(claims[i]) == KeyOf(c);
      }
    }
  }

  // ----- What the live list of a group holds -----

  ghost predicate OnePerOrigin<V>(newest: seq<Claim<V>>) {
    forall i, j :: 0 <= i < j < |newest| ==> !SameOrigin(newest[i], newest[j])
  }

  /** Some entry of the list speaks for d: same origin, and at least as new. */
  ghost predicate SpokenFor<V>(newest: seq<Claim<V>>, d: Claim<V>) {
    exists i :: 0 <= i < |newest| && SameOrigin(newest[i], d) && d.sequence <= newest[i].sequence
  }

  /** One entry per origin, and it carries the highest sequence that origin published. */
  ghost predicate Represents<V>(newest: seq<Claim<V>>, live: seq<Claim<V>>) {
    && OnePerOrigin(newest)
    && (forall c :: c in newest ==> c in live)
    && (forall d :: d in live ==> SpokenFor(newest, d))
  }

  lemma ReviseWithOrigins<V>(r: Revision<V>, c: Claim<V>)
    requires OnePerOrigin(r.newest)
    ensures OnePerOrigin(ReviseWith(r, c).newest)
  {
    var i, n := FindOrigin(r.newest, c), ReviseWith(r, c).newest;
    forall a, b | 0 <= a < b < |n| ensures !SameOrigin(n[a], n[b]) {
      if i < |r.newest| {
        assert !SameOrigin(r.newest[a], r.newest[b]);
      }
    }
  }

  lemma ReviseWithSpeaks<V>(r: Revision<V>, c: Claim<V>, d: Claim<V>)
    requires SpokenFor(r.newest, d) || d == c
    requires d.sequence <= c.sequence
    ensures SpokenFor(ReviseWith(r, c).newest, d)
  {
    var i, n := FindOrigin(r.newest, c), ReviseWith(r, c).newest;
    assert n[i] == c;
    if !SameOrigin(c, d) {
      var j :| 0 <= j < |r.newest| && SameOrigin(r.newest[j], d) && d.sequence <= r.newest[j].sequence;
      assert n[j] == r.newest[j];
    }
  }

  lemma ReviseWithMembers<V>(r: Revision<V>, c: Claim<V>, e: Claim<V>)
    requires e in ReviseWith(r, c).newest
    ensures e == c || e in r.newest
  {
  }

  lemma ReviseWithRepresents<V>(r: Revision<V>, front: seq<Claim<V>>, c: Claim<V>)
    requires Represents(r.newest, front)
    requires forall d :: d in front ==> d.sequence <= c.sequence
    ensures Represents(ReviseWith(r, c).newest, front + [c])
  {
    hide ReviseWith, SpokenFor, OnePerOrigin;
    ReviseWithOrigins(r, c);
    forall d | d in front + [c] ensures SpokenFor(ReviseWith(r, c).newest, d) {
      ReviseWithSpeaks(r, c, d);
    }
    forall e | e in ReviseWith(r, c).newest ensures e in front + [c] {
      ReviseWithMembers(r, c, e);
    }
  }

  lemma LastIsHighest<V>(live: seq<Claim<V>>, d: Claim<V>)
    requires Sorted(live, BySequence) && live != [] && d in live[..|live| - 1]
    ensures d.sequence <= live[|live| - 1].sequence
    ensures Sorted(live[..|live| - 1], BySequence)
  {
    var i :| 0 <= i < |live| - 1 && live[i] == d;
    assert !BySequence(live[|live| - 1], live[i]);
  }

  lemma {:induction false} ReviseRepresents<V>(live: seq<Claim<V>>)
    requires Sorted(live, BySequence)
    ensures Represents(Revise(live).newest, live)
  {
    if live == [] {
      RepresentsNothing<V>();
    } else {
      var front, c := live[..|live| - 1], live[|live| - 1];
      ReviseRepresents(front);
      hide *;
      forall d | d in front ensures d.sequence <= c.sequence {
        LastIsHighest(live, d);
      }
      ReviseWithRepresents(Revise(front), front, c);
      assert live == front + [c];
      ReviseLast(front, c);
    }
  }

  lemma RepresentsNothing<V>()
    ensures Represents<V>([], [])
  {
  }

  lemma RepresentsSame<V>(newest: seq<Claim<V>>, a: seq<Claim<V>>, b: seq<Claim<V>>)
    requires Represents(newest, a)
    requires forall c :: c in a ==> c in b
    requires forall c :: c in b ==> c in a
    ensures Represents(newest, b)
  {
  }

  /** The live list of a group: exactly the highest-sequence live entry of each source and epoch. */
  lemma NewestPerOrigin<V(!new)>(members: seq<Claim<V>>)
    ensures Represents(NewestOf(members), Filter(members, IsLive))
  {
    hide Represents, Filter, Sort, Revise;
    var live := Filter(members, IsLive);
    var s := SortedLive(members);
    SequenceOrder<V>();
    SortSorted(live, BySequence);
    ReviseRepresents(s);
    forall c ensures c in s <==> c in live {
      assert c in multiset(s) <==> c in multiset(live);
    }
    RepresentsSame(NewestOf(members), s, live);
  }

  /**
   * The outcome in terms of the evidence: Conflicting exactly when two origins stand behind
   * different values, Unknown never for a group that exists, and a value only without conflict.
   */
  lemma OutcomeMeaning<V(!new)>(claims: seq<Claim<V>>, k: GroupKey)
    requires k in Keys(claims)
    ensures var g := GroupOf(claims, k);
      && (g.outcome == Conflicting <==>
          exists i, j :: 0 <= i < j < |g.claims| && g.claims[i].value != g.claims[j].value)
      && g.outcome != Unknown
      && (g.outcome == Superseded <==> forall c :: c in Members(claims, k) ==> !c.live)
      && (g.value.Some? <==> g.outcome == SingleSource || g.outcome == Agreed)
      && (g.value.Some? ==> forall c :: c in g.claims ==> c.value == g.value.value)
      && (g.outcome == SingleSource <==> |g.claims| == 1)
  {
    hide NewestOf, SupersededOf, Keys, Filter;
    var members := Members(claims, k);
    var g := GroupOf(claims, k);
    KeysOrdered(claims);
    var i :| 0 <= i < |claims| && KeyOf(claims[i]) == k;
    assert claims[i] in members;
    GroupKeeps(members);
    assert claims[i] in multiset(members);
    assert claims[i] in multiset(g.claims) || claims[i] in multiset(g.superseded);
    NewestPerOrigin(members);
    if g.claims != [] {
      assert g.claims[0] in Filter(members, IsLive);
    }
    ConflictIsDisagreement(g.claims);
  }

  lemma ConflictIsDisagreement<V>(newest: seq<Claim<V>>)
    ensures !AllAgree(newest) <==>
            exists i, j :: 0 <= i < j < |newest| && newest[i].value != newest[j].value
  {
    if !AllAgree(newest) {
      var i :| 0 < i < |newest| && newest[i].value != newest[0].value;
      assert newest[0].value != newest[i].value;
    }
  }

  // ----- Order independence -----

  /** No two entries of one group share a sequence number. */
  ghost predicate DistinctInGroups<V>(claims: seq<Claim<V>>) {
    forall i, j :: 0 <= i < j < |claims| && KeyOf(claims[i]) == KeyOf(claims[j])
      ==> claims[i].sequence != claims[j].sequence
  }

  lemma LastIsFirstSeen<V>(claims: seq<Claim<V>>)
    requires DistinctInGroups(claims) && claims != []
    ensures claims[|claims| - 1] !in claims[..|claims| - 1]
  {
  }

  lemma {:induction false} DistinctOnce<V>(claims: seq<Claim<V>>, c: Claim<V>)
    requires DistinctInGroups(claims)
    ensures multiset(claims)[c] <= 1
  {
    if claims != [] {
      var front, x := claims[..|claims| - 1], claims[|claims| - 1];
      assert claims == front + [x];
      DistinctOnce(front, c);
      LastIsFirstSeen(claims);
    }
  }

  lemma DistinctPair<V>(claims: seq<Claim<V>>, x: Claim<V>, y: Claim<V>)
    requires DistinctInGroups(claims) && x in claims && y in claims
    requires KeyOf(x) == KeyOf(y) && x != y
    ensures x.sequence != y.sequence
  {
    var i :| 0 <= i < |claims| && claims[i] == x;
    var j :| 0 <= j < |claims| && claims[j] == y;
  }

  lemma SortPartCanonical<V(!new)>(a: seq<Claim<V>>, b: seq<Claim<V>>, k: GroupKey, p: Claim<V> -> bool)
    requires multiset(a) == multiset(b) && DistinctInGroups(a)
    ensures Sort(Filter(Members(a, k), p), BySequence) == Sort(Filter(Members(b, k), p), BySequence)
  {
    hide Filter, Sort, DistinctInGroups;
    FilterPermutation(a, b, HasKey(k));
    FilterPermutation(Members(a, k), Members(b, k), p);
    var u := Filter(Members(a, k), p);
    forall x | x in multiset(u) ensures multiset(u)[x] == 1 {
      FilterCount(Members(a, k), p, x);
      FilterCount(a, HasKey(k), x);
      DistinctOnce(a, x);
    }
    forall x, y | x in u && y in u && x != y ensures BySequence(x, y) || BySequence(y, x) {
      assert x in Members(a, k) && y in Members(a, k);
      assert x in a && y in a && KeyOf(x) == k == KeyOf(y);
      DistinctPair(a, x, y);
    }
    SequenceOrder<V>();
    SortCanonical(u, Filter(Members(b, k), p), BySequence);
  }

  lemma GroupOrderFree<V(!new)>(a: seq<Claim<V>>, b: seq<Claim<V>>, k: GroupKey)
    requires multiset(a) == multiset(b) && DistinctInGroups(a)
    ensures GroupOf(a, k) == GroupOf(b, k)
  {
    hide Filter, Sort, DistinctInGroups, Revise;
    SortPartCanonical(a, b, k, IsLive);
    SortPartCanonical(a, b, k, IsDead);
  }

  lemma KeysOrderFree<V(!new)>(a: seq<Claim<V>>, b: seq<Claim<V>>)
    requires multiset(a) == multiset(b)
    ensures Keys(a) == Keys(b)
  {
    hide Keys;
    KeysOrdered(a);
    KeysOrdered(b);
    forall k ensures k in Keys(a) <==> k in Keys(b) {
      if k in Keys(a) {
        var i :| 0 <= i < |a| && KeyOf(a[i]) == k;
        assert a[i] in multiset(b);
        var j :| 0 <= j < |b| && b[j] == a[i];
      }
      if k in Keys(b) {
        var i :| 0 <= i < |b| && KeyOf(b[i]) == k;
        assert b[i] in multiset(a);
        var j :| 0 <= j < |a| && a[j] == b[i];
      }
    }
    KeyOrder();
    StrictSetUnique(Keys(a), Keys(b), KeyLess);
  }

  lemma {:induction false} GroupsOrderFree<V(!new)>(a: seq<Claim<V>>, b: seq<Claim<V>>, keys: seq<GroupKey>)
    requires multiset(a) == multiset(b) && DistinctInGroups(a)
    ensures GroupsFor(a, keys) == GroupsFor(b, keys)
  {
    hide GroupOf, DistinctInGroups;
    if keys != [] {
      GroupsOrderFree(a, b, keys[..|keys| - 1]);
      GroupOrderFree(a, b, keys[|keys| - 1]);
    }
  }

  /** The consensus does not depend on the order in which claims arrive. */
  lemma OrderFree<V(!new)>(a: seq<Claim<V>>, b: seq<Claim<V>>)
    requires multiset(a) == multiset(b) && DistinctInGroups(a)
    ensures Build(a) == Build(b)
  {
    hide GroupsFor, Keys, DistinctInGroups;
    KeysOrderFree(a, b);
    GroupsOrderFree(a, b, Keys(a));
  }

  // ----- The loops -----

  method SplitByLiveness<V>(members: seq<Claim<V>>) returns (live: seq<Claim<V>>, dead: seq<Claim<V>>)
    ensures live == Filter(members, IsLive) && dead == Filter(members, IsDead)
  {
    hide Filter;
    live, dead := [], [];
    FilterNone<Claim<V>>(IsLive);
    FilterNone<Claim<V>>(IsDead);
    for n := 0 to |members|
      invariant live == Filter(members[..n], IsLive) && dead == Filter(members[..n], IsDead)
    {
      FilterLast(members[..n], members[n], IsLive);
      FilterLast(members[..n], members[n], IsDead);
      assert members[..n + 1] == members[..n] + [members[n]];
      if members[n].live {
        live := live + [members[n]];
      } else {
        dead := dead + [members[n]];
      }
    }
    assert members[..|members|] == members;
  }

  lemma ReviseNothing<V>()
    ensures Revise<V>([]) == Revision([], [])
  {
  }

  method NewestPerSource<V>(live: seq<Claim<V>>, dead: seq<Claim<V>>)
    returns (newest: seq<Claim<V>>, superseded: seq<Claim<V>>)
    ensures newest == Revise(live).newest && superseded == dead + Revise(live).revised
  {
    ReviseNothing<V>();
    hide Revise, SameOrigin;
    newest, superseded := [], dead;
    for n := 0 to |live|
      invariant newest == Revise(live[..n]).newest && superseded == dead + Revise(live[..n]).revised
    {
      ReviseLast(live[..n], live[n]);
      assert live[..n + 1] == live[..n] + [live[n]];
      var existing := 0;
      while existing < |newest| && !SameOrigin(newest[existing], live[n])
        invariant existing <= FindOrigin(newest, live[n])
        invariant forall j :: 0 <= j < existing ==> !SameOrigin(newest[j], live[n])
      {
        existing := existing + 1;
      }
      if existing == |newest| {
        newest := newest + [live[n]];
      } else {
        superseded := superseded + [newest[existing]];
        newest := newest[existing := live[n]];
      }
    }
    assert live[..|live|] == live;
  }

  method DecideOutcome<V(==)>(newest: seq<Claim<V>>, superseded: seq<Claim<V>>)
    returns (outcome: Outcome, value: Option<V>)
    ensures outcome == OutcomeOf(newest, superseded) && value == ValueOf(newest)
  {
    value := None;
    if newest == [] {
      outcome := if superseded == [] then Unknown else Superseded;
    } else if |newest| == 1 {
      outcome := SingleSource;
      value := Some(newest[0].value);
    } else {
      var agrees := true;
      for i := 1 to |newest|
        invariant agrees ==> forall j :: 0 < j < i ==> newest[j].value == newest[0].value
        invariant !agrees ==> !AllAgree(newest)
      {
        if newest[i].value != newest[0].value {
          agrees := false;
          break;
        }
      }
      outcome := if agrees then Agreed else Conflicting;
      if agrees {
        value := Some(newest[0].value);
      }
    }
  }

  /** The std::map filled by the grouping loop: its keys in order, and each key's entries. */
  method GroupByKey<V>(claims: seq<Claim<V>>) returns (keys: seq<GroupKey>, grouped: map<GroupKey, seq<Claim<V>>>)
    ensures keys == Keys(claims)
    ensures forall k :: k in grouped <==> k in keys
    ensures forall k :: k in keys ==> grouped[k] == Members(claims, k)
  {
    hide Filter;
    keys, grouped := [], map[];
    for n := 0 to |claims|
      invariant keys == Keys(claims[..n])
      invariant forall k :: k in grouped <==> k in keys
      invariant forall k :: k in keys ==> grouped[k] == Members(claims[..n], k)
    {
      var c, k := claims[n], KeyOf(claims[n]);
      ghost var before := claims[..n];
      assert claims[..n + 1] == before + [c];
      assert (before + [c])[..|before|] == before;
      forall q ensures Members(before + [c], q) == if q == k then Members(before, q) + [c] else Members(before, q) {
        FilterLast(before, c, HasKey(q));
      }
      AbsentKey(before, k);
      grouped := grouped[k := (if k in grouped then grouped[k] else []) + [c]];
      keys := InsertUnique(k, keys, KeyLess);
    }
    assert claims[..|claims|] == claims;
  }

  lemma AbsentKey<V>(claims: seq<Claim<V>>, k: GroupKey)
    ensures k in Keys(claims) || Members(claims, k) == []
  {
    KeysOrdered(claims);
    if Members(claims, k) != [] {
      var c := Members(claims, k)[0];
      assert c in Members(claims, k);
      assert c in claims;
      var i :| 0 <= i < |claims| && claims[i] == c;
      assert KeyOf(claims[i]) == k;
    }
  }

  /** build_identity_consensus and build_capability_consensus. */
  method BuildConsensus<V(==)>(claims: seq<Claim<V>>) returns (result: seq<Group<V>>)
    ensures result == Build(claims)
  {
    hide Keys, Members, Filter, Sort, Revise, OutcomeOf, ValueOf;
    var keys, grouped := GroupByKey(claims);
    result := [];
    for n := 0 to |keys|
      invariant result == GroupsFor(claims, keys[..n])
    {
      var k := keys[n];
      var live, dead := SplitByLiveness(grouped[k]);
      var newest, superseded := NewestPerSource(Sort(live, BySequence), Sort(dead, BySequence));
      superseded := Sort(superseded, BySequence);
      var outcome, value := DecideOutcome(newest, superseded);
      result := result + [Group(k, outcome, value, newest, superseded)];
      assert keys[..n + 1][..n] == keys[..n];
    }
    assert keys[..|keys|] == keys;
  }
}
