/** Trimming never changes an answer: live views and consensus before and after. */
module TrimAnswers {
  import opened Bytes
  import opened Ordering
  import opened Authority
  import opened Consensus
  import opened Trim

  function Marked<V>(kind: ClaimKind, s: seq<Claim<V>>, epochs: map<nat, nat>, c: Claim<V>): Claim<V> {
    c.(live := SourceIsLive(epochs, c.source, c.epoch) && !Shadowed(kind, s, c))
  }

  function ViewPart<V>(kind: ClaimKind, s: seq<Claim<V>>, part: seq<Claim<V>>, incarnation: nat,
                       epochs: map<nat, nat>): seq<Claim<V>>
  {
    if part == [] then []
    else
      var c := part[|part| - 1];
      ViewPart(kind, s, part[..|part| - 1], incarnation, epochs) +
      (if Selected(kind, c, incarnation) then [Marked(kind, s, epochs, c)] else [])
  }

  /** live_claims, live_declarations and live_port_declarations. */
  function LiveView<V>(kind: ClaimKind, s: seq<Claim<V>>, incarnation: nat, epochs: map<nat, nat>): seq<Claim<V>> {
    ViewPart(kind, s, s, incarnation, epochs)
  }

  method MarkLive<V>(kind: ClaimKind, s: seq<Claim<V>>, incarnation: nat, epochs: map<nat, nat>)
    returns (view: seq<Claim<V>>)
    ensures view == LiveView(kind, s, incarnation, epochs)
  {
    hide Marked;
    view := [];
    for n := 0 to |s|
      invariant view == ViewPart(kind, s, s[..n], incarnation, epochs)
    {
      assert s[..n + 1][..n] == s[..n];
      if kind == OfPort || s[n].incarnation == incarnation {
        view := view + [Marked(kind, s, epochs, s[n])];
      }
    }
    assert s[..|s|] == s;
  }

  // ----- The live part of a view -----

  function Lit<V>(s: seq<Claim<V>>): seq<Claim<V>> {
    seq(|s|, i requires 0 <= i < |s| => s[i].(live := true))
  }

  function FromLive<V>(epochs: map<nat, nat>): Claim<V> -> bool {
    (c: Claim<V>) => SourceIsLive(epochs, c.source, c.epoch)
  }

  lemma ViewLast<V>(kind: ClaimKind, s: seq<Claim<V>>, front: seq<Claim<V>>, c: Claim<V>, incarnation: nat,
                    epochs: map<nat, nat>)
    ensures ViewPart(kind, s, front + [c], incarnation, epochs) ==
            ViewPart(kind, s, front, incarnation, epochs) +
            (if Selected(kind, c, incarnation) then [Marked(kind, s, epochs, c)] else [])
  {
    assert (front + [c])[..|front|] == front;
  }

  lemma LitLast<V>(front: seq<Claim<V>>, c: Claim<V>)
    ensures Lit(front + [c]) == Lit(front) + [c.(live := true)]
  {
  }

  lemma {:induction false} LivePart<V>(kind: ClaimKind, s: seq<Claim<V>>, part: seq<Claim<V>>, incarnation: nat,
                                       epochs: map<nat, nat>)
    ensures Filter(ViewPart(kind, s, part, incarnation, epochs), IsLive) ==
            Lit(Filter(Filter(part, Unrevised(kind, s, incarnation)), FromLive(epochs)))
  {
    hide Filter, Shadowed, Lit, SourceIsLive;
    if part == [] {
      FilterNone<Claim<V>>(IsLive);
      FilterNone<Claim<V>>(Unrevised(kind, s, incarnation));
      FilterNone<Claim<V>>(FromLive(epochs));
      LitNone<V>();
    } else {
      var front, c := part[..|part| - 1], part[|part| - 1];
      LivePart(kind, s, front, incarnation, epochs);
      assert part == front + [c];
      var view := ViewPart(kind, s, front, incarnation, epochs);
      var kept := Filter(front, Unrevised(kind, s, incarnation));
      ViewLast(kind, s, front, c, incarnation, epochs);
      FilterLast(front, c, Unrevised(kind, s, incarnation));
      FilterLast(kept, c, FromLive(epochs));
      LitLast(Filter(kept, FromLive(epochs)), c);
      FilterLast(view, Marked(kind, s, epochs, c), IsLive);
      assert view + [] == view;
    }
  }

  lemma LitNone<V>()
    ensures Lit<V>([]) == []
  {
  }

  /** The live entries of a view are the same after a faithful trim, in the same order. */
  lemma LivePartKept<V>(kind: ClaimKind, before: seq<Claim<V>>, after: seq<Claim<V>>, incarnation: nat,
                        epochs: map<nat, nat>)
    requires Faithful(kind, before, after, incarnation)
    ensures Filter(LiveView(kind, after, incarnation, epochs), IsLive) ==
            Filter(LiveView(kind, before, incarnation, epochs), IsLive)
  {
    hide Filter, Shadowed, Lit;
    LivePart(kind, before, before, incarnation, epochs);
    LivePart(kind, after, after, incarnation, epochs);
  }

  // ----- The view only shrinks -----

  /** How often the entry behind x, with this stored flag, makes x appear in the view. */
  function Behind<V(==)>(kind: ClaimKind, s: seq<Claim<V>>, part: seq<Claim<V>>, incarnation: nat,
                         epochs: map<nat, nat>, x: Claim<V>, flag: bool): nat
  {
    var c := x.(live := flag);
    if Selected(kind, c, incarnation) && Marked(kind, s, epochs, c) == x then multiset(part)[c] else 0
  }

  lemma BehindLast<V(!new)>(kind: ClaimKind, s: seq<Claim<V>>, front: seq<Claim<V>>, c: Claim<V>, incarnation: nat,
                            epochs: map<nat, nat>, x: Claim<V>, flag: bool)
    ensures Behind(kind, s, front + [c], incarnation, epochs, x, flag) ==
            Behind(kind, s, front, incarnation, epochs, x, flag) +
            if c.live == flag && Selected(kind, c, incarnation) && Marked(kind, s, epochs, c) == x then 1 else 0
  {
    hide Shadowed, SourceIsLive;
    var d := x.(live := flag);
    if c == d {
    } else {
      assert multiset(front + [c])[d] == multiset(front)[d];
    }
  }

  lemma {:induction false} ViewCount<V(!new)>(kind: ClaimKind, s: seq<Claim<V>>, part: seq<Claim<V>>, incarnation: nat,
                                              epochs: map<nat, nat>, x: Claim<V>)
    ensures multiset(ViewPart(kind, s, part, incarnation, epochs))[x] ==
            Behind(kind, s, part, incarnation, epochs, x, true) + Behind(kind, s, part, incarnation, epochs, x, false)
  {
    if part != [] {
      hide Marked, Behind, ViewPart, Selected;
      var front, c := part[..|part| - 1], part[|part| - 1];
      ViewCount(kind, s, front, incarnation, epochs, x);
      assert part == front + [c];
      ViewLast(kind, s, front, c, incarnation, epochs);
      BehindLast(kind, s, front, c, incarnation, epochs, x, true);
      BehindLast(kind, s, front, c, incarnation, epochs, x, false);
    }
  }

  lemma ShadowIgnoresFlag<V>(kind: ClaimKind, s: seq<Claim<V>>, c: Claim<V>, flag: bool)
    ensures Shadowed(kind, s, c.(live := flag)) <==> Shadowed(kind, s, c)
  {
    var d := c.(live := flag);
    assert forall j :: 0 <= j < |s| ==> (Shadows(kind, s[j], d) <==> Shadows(kind, s[j], c));
  }

  lemma BehindShrinks<V(!new)>(kind: ClaimKind, before: seq<Claim<V>>, after: seq<Claim<V>>, incarnation: nat,
                         epochs: map<nat, nat>, x: Claim<V>, flag: bool)
    requires Faithful(kind, before, after, incarnation)
    ensures Behind(kind, after, after, incarnation, epochs, x, flag) <=
            Behind(kind, before, before, incarnation, epochs, x, flag)
  {
    hide Shadowed, SourceIsLive, Filter;
    var c := x.(live := flag);
    SubsequenceCount(after, before);
    assert multiset(after)[c] <= multiset(before)[c];
    if c in after {
      assert Marked(kind, after, epochs, c) == Marked(kind, before, epochs, c);
    }
  }

  lemma ViewShrinks<V(!new)>(kind: ClaimKind, before: seq<Claim<V>>, after: seq<Claim<V>>, incarnation: nat,
                             epochs: map<nat, nat>)
    requires Faithful(kind, before, after, incarnation)
    ensures multiset(LiveView(kind, after, incarnation, epochs)) <=
            multiset(LiveView(kind, before, incarnation, epochs))
  {
    hide Faithful, Behind, ViewPart;
    forall x: Claim<V>
      ensures multiset(LiveView(kind, after, incarnation, epochs))[x] <=
              multiset(LiveView(kind, before, incarnation, epochs))[x]
    {
      ViewCount(kind, before, before, incarnation, epochs, x);
      ViewCount(kind, after, after, incarnation, epochs, x);
      BehindShrinks(kind, before, after, incarnation, epochs, x, true);
      BehindShrinks(kind, before, after, incarnation, epochs, x, false);
    }
  }

  // ----- No attribute disappears -----

  /** Whatever is stored is stated, or revised, by an entry nothing revises. */
  lemma {:induction false} SomeoneStands<V>(kind: ClaimKind, s: seq<Claim<V>>, i: nat, incarnation: nat)
    returns (d: Claim<V>)
    requires Orderly(s) && i < |s| && Selected(kind, s[i], incarnation)
    ensures d in s && Unrevised(kind, s, incarnation)(d) && KeyOf(d) == KeyOf(s[i])
    decreases |s| - i
  {
    if Shadowed(kind, s, s[i]) {
      var j :| 0 <= j < |s| && Shadows(kind, s[j], s[i]);
      assert j > i;
      d := SomeoneStands(kind, s, j, incarnation);
    } else {
      d := s[i];
    }
  }

  lemma {:induction false} ViewKeys<V>(kind: ClaimKind, s: seq<Claim<V>>, part: seq<Claim<V>>, incarnation: nat,
                                       epochs: map<nat, nat>, k: GroupKey)
    ensures (exists x :: x in ViewPart(kind, s, part, incarnation, epochs) && KeyOf(x) == k) <==>
            (exists c :: c in part && Selected(kind, c, incarnation) && KeyOf(c) == k)
  {
    hide Shadowed, SourceIsLive;
    if part != [] {
      var front, c := part[..|part| - 1], part[|part| - 1];
      ViewKeys(kind, s, front, incarnation, epochs, k);
      assert part == front + [c];
      var view, earlier := ViewPart(kind, s, part, incarnation, epochs), ViewPart(kind, s, front, incarnation, epochs);
      assert forall x :: x in view <==> x in earlier || (Selected(kind, c, incarnation)
                                                         && x == Marked(kind, s, epochs, c));
      assert forall x :: x in part <==> x in front || x == c;
      assert KeyOf(Marked(kind, s, epochs, c)) == KeyOf(c);
    }
  }

  lemma ViewHasKey<V>(kind: ClaimKind, s: seq<Claim<V>>, incarnation: nat, epochs: map<nat, nat>, k: GroupKey)
    ensures k in Keys(LiveView(kind, s, incarnation, epochs)) <==>
            exists c :: c in s && Selected(kind, c, incarnation) && KeyOf(c) == k
  {
    hide ViewPart, Keys;
    var view := LiveView(kind, s, incarnation, epochs);
    ViewKeys(kind, s, s, incarnation, epochs, k);
    KeysOrdered(view);
    if k in Keys(view) {
      var i :| 0 <= i < |view| && KeyOf(view[i]) == k;
      assert view[i] in view;
    }
    if exists x :: x in view && KeyOf(x) == k {
      var x :| x in view && KeyOf(x) == k;
      var i :| 0 <= i < |view| && view[i] == x;
    }
  }

  lemma UnrevisedKept<V>(kind: ClaimKind, before: seq<Claim<V>>, after: seq<Claim<V>>, incarnation: nat, c: Claim<V>)
    requires Faithful(kind, before, after, incarnation)
    requires c in before && Unrevised(kind, before, incarnation)(c)
    ensures c in after
  {
    hide Shadowed;
    assert c in Filter(before, Unrevised(kind, before, incarnation));
    assert c in Filter(after, Unrevised(kind, after, incarnation));
  }

  lemma KeysKept<V(!new)>(kind: ClaimKind, before: seq<Claim<V>>, after: seq<Claim<V>>, incarnation: nat,
                          epochs: map<nat, nat>)
    requires Faithful(kind, before, after, incarnation) && Orderly(before)
    ensures Keys(LiveView(kind, after, incarnation, epochs)) == Keys(LiveView(kind, before, incarnation, epochs))
  {
    hide Faithful, Orderly, LiveView, Keys, Unrevised;
    var a, b := Keys(LiveView(kind, after, incarnation, epochs)), Keys(LiveView(kind, before, incarnation, epochs));
    FaithfulIsSubsequence(kind, before, after, incarnation);
    SubsequenceTidy(kind, after, before);
    forall k ensures k in a <==> k in b {
      ViewHasKey(kind, before, incarnation, epochs, k);
      ViewHasKey(kind, after, incarnation, epochs, k);
      if k in b {
        var c :| c in before && Selected(kind, c, incarnation) && KeyOf(c) == k;
        var i :| 0 <= i < |before| && before[i] == c;
        var d := SomeoneStands(kind, before, i, incarnation);
        UnrevisedKept(kind, before, after, incarnation, d);
        UnrevisedIsSelected(kind, before, incarnation, d);
      }
    }
    KeysOrdered(LiveView(kind, before, incarnation, epochs));
    KeysOrdered(LiveView(kind, after, incarnation, epochs));
    KeyOrder();
    StrictSetUnique(a, b, KeyLess);
  }

  lemma UnrevisedIsSelected<V>(kind: ClaimKind, s: seq<Claim<V>>, incarnation: nat, c: Claim<V>)
    requires Unrevised(kind, s, incarnation)(c)
    ensures Selected(kind, c, incarnation)
  {
  }

  // ----- The consensus -----

  /** Same attribute, same answer, same live evidence; the superseded list may only lose entries. */
  ghost predicate SameAnswer<V>(before: Group<V>, after: Group<V>) {
    && after.key == before.key && after.outcome == before.outcome && after.value == before.value
    && after.claims == before.claims
    && multiset(after.superseded) <= multiset(before.superseded)
  }

  lemma {:induction false} FilterCommutes<T>(s: seq<T>, p: T -> bool, q: T -> bool)
    ensures Filter(Filter(s, p), q) == Filter(Filter(s, q), p)
  {
    hide Filter;
    if s == [] {
      FilterNone(p);
      FilterNone(q);
    } else {
      var front, x := s[..|s| - 1], s[|s| - 1];
      FilterCommutes(front, p, q);
      assert s == front + [x];
      FilterLast(front, x, p);
      FilterLast(front, x, q);
      FilterLast(Filter(front, p), x, q);
      FilterLast(Filter(front, q), x, p);
    }
  }

  lemma GroupMembersKept<V(!new)>(v: seq<Claim<V>>, w: seq<Claim<V>>, k: GroupKey)
    requires Filter(w, IsLive) == Filter(v, IsLive) && multiset(w) <= multiset(v)
    ensures Filter(Members(w, k), IsLive) == Filter(Members(v, k), IsLive)
    ensures multiset(Members(w, k)) <= multiset(Members(v, k))
  {
    hide Filter;
    FilterCommutes(w, HasKey(k), IsLive);
    FilterCommutes(v, HasKey(k), IsLive);
    forall x: Claim<V> ensures multiset(Members(w, k))[x] <= multiset(Members(v, k))[x] {
      FilterCount(w, HasKey(k), x);
      FilterCount(v, HasKey(k), x);
    }
  }

  lemma GroupKept<V(!new)>(v: seq<Claim<V>>, w: seq<Claim<V>>, k: GroupKey)
    requires Filter(w, IsLive) == Filter(v, IsLive) && multiset(w) <= multiset(v)
    requires k in Keys(w) && k in Keys(v)
    ensures SameAnswer(GroupOf(v, k), GroupOf(w, k))
  {
    hide Filter, Keys, Members, SupersededOf, Revise, Sort, AllAgree;
    var a, b := Members(w, k), Members(v, k);
    GroupMembersKept(v, w, k);
    GroupKeeps(a);
    GroupKeeps(b);
    assert NewestOf(a) == NewestOf(b);
    MembersExist(v, k);
    MembersExist(w, k);
    RestShrinks(multiset(NewestOf(b)), multiset(SupersededOf(a)), multiset(SupersededOf(b)));
    EmptyMultiset(SupersededOf(a));
    EmptyMultiset(SupersededOf(b));
    EmptyMultiset(NewestOf(b));
    SameOutcome(NewestOf(b), SupersededOf(a), SupersededOf(b));
  }

  lemma RestShrinks<T(!new)>(common: multiset<T>, a: multiset<T>, b: multiset<T>)
    requires common + a <= common + b
    ensures a <= b
  {
    forall x: T ensures a[x] <= b[x] {
      assert (common + a)[x] <= (common + b)[x];
    }
  }

  lemma SameOutcome<V>(newest: seq<Claim<V>>, a: seq<Claim<V>>, b: seq<Claim<V>>)
    requires newest == [] ==> a != [] && b != []
    ensures OutcomeOf(newest, a) == OutcomeOf(newest, b)
  {
  }

  lemma EmptyMultiset<T>(s: seq<T>)
    ensures multiset(s) == multiset{} <==> s == []
  {
    if s != [] {
      assert s[0] in multiset(s);
    }
  }

  lemma MembersExist<V>(claims: seq<Claim<V>>, k: GroupKey)
    requires k in Keys(claims)
    ensures multiset(Members(claims, k)) != multiset{}
  {
    hide Keys;
    KeysOrdered(claims);
    var i :| 0 <= i < |claims| && KeyOf(claims[i]) == k;
    assert claims[i] in claims && HasKey(k)(claims[i]);
    assert claims[i] in Members(claims, k);
    assert claims[i] in multiset(Members(claims, k));
  }

  lemma {:induction false} GroupAt<V>(claims: seq<Claim<V>>, keys: seq<GroupKey>, i: nat)
    requires i < |keys|
    ensures GroupsFor(claims, keys)[i] == GroupOf(claims, keys[i])
  {
    hide GroupOf;
    if i < |keys| - 1 {
      GroupAt(claims, keys[..|keys| - 1], i);
    }
  }

  /** Trimming never changes an answer about the current incarnation. */
  lemma TrimKeepsAnswers<V(!new)>(kind: ClaimKind, s: seq<Claim<V>>, maxTotal: nat, maxHistory: nat, incarnation: nat,
                                  epochs: map<nat, nat>)
    requires OneSubject(kind, s) && Orderly(s) && UpTo(s, incarnation) && maxHistory >= 1
    requires TrimList(kind, s, maxTotal, maxHistory).Ok?
    ensures var after := TrimList(kind, s, maxTotal, maxHistory).value;
      var v, w := LiveView(kind, s, incarnation, epochs), LiveView(kind, after, incarnation, epochs);
      && Filter(w, IsLive) == Filter(v, IsLive)
      && |Build(w)| == |Build(v)|
      && forall i :: 0 <= i < |Build(v)| ==> SameAnswer(Build(v)[i], Build(w)[i])
  {
    hide TrimList, OneSubject, Orderly, UpTo;
    TrimFaithful(kind, s, maxTotal, maxHistory, incarnation);
    FaithfulAnswers(kind, s, TrimList(kind, s, maxTotal, maxHistory).value, incarnation, epochs);
  }

  /** The same for ports, whose lists are only held to the total. */
  lemma ShrinkKeepsAnswers<V(!new)>(s: seq<Claim<V>>, maxTotal: nat, epochs: map<nat, nat>)
    requires OneSubject(OfPort, s) && Orderly(s)
    requires Shrink(OfPort, s, maxTotal).Ok?
    ensures var after := Shrink(OfPort, s, maxTotal).value;
      var v, w := LiveView(OfPort, s, 0, epochs), LiveView(OfPort, after, 0, epochs);
      && Filter(w, IsLive) == Filter(v, IsLive)
      && |Build(w)| == |Build(v)|
      && forall i :: 0 <= i < |Build(v)| ==> SameAnswer(Build(v)[i], Build(w)[i])
  {
    hide Shrink, OneSubject, Orderly;
    ShrinkFaithful(OfPort, s, maxTotal, 0);
    FaithfulAnswers(OfPort, s, Shrink(OfPort, s, maxTotal).value, 0, epochs);
  }

  lemma FaithfulAnswers<V(!new)>(kind: ClaimKind, before: seq<Claim<V>>, after: seq<Claim<V>>, incarnation: nat,
                                 epochs: map<nat, nat>)
    requires Faithful(kind, before, after, incarnation) && Orderly(before)
    ensures var v, w := LiveView(kind, before, incarnation, epochs), LiveView(kind, after, incarnation, epochs);
      && Filter(w, IsLive) == Filter(v, IsLive)
      && |Build(w)| == |Build(v)|
      && forall i :: 0 <= i < |Build(v)| ==> SameAnswer(Build(v)[i], Build(w)[i])
  {
    hide Faithful, Orderly, LiveView, GroupOf, GroupsFor, Keys, Filter, SameAnswer;
    var v, w := LiveView(kind, before, incarnation, epochs), LiveView(kind, after, incarnation, epochs);
    LivePartKept(kind, before, after, incarnation, epochs);
    ViewShrinks(kind, before, after, incarnation, epochs);
    KeysKept(kind, before, after, incarnation, epochs);
    forall i | 0 <= i < |Build(v)| ensures SameAnswer(Build(v)[i], Build(w)[i]) {
      GroupAt(v, Keys(v), i);
      GroupAt(w, Keys(w), i);
      GroupKept(v, w, Keys(v)[i]);
    }
  }
}
