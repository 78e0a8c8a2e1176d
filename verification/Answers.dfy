/**
 * What an identity or capability answer says about the stored entries, field by field: src/registry.cpp:454-520,
 * 905-1010.
 */
module Answers {
  import opened Bytes
  import opened Ordering
  import A = Authority
  import opened Consensus
  import opened Trim
  import opened TrimAnswers

  /**
   * The entry states this attribute for the subject now: its incarnation, its source's epoch, and nothing newer from
   * it.
   */
  ghost predicate Stands<V(!new)>(kind: ClaimKind, s: seq<Claim<V>>, incarnation: nat, epochs: map<nat, nat>, attr: nat,
                                  subkey: Text, c: Claim<V>)
  {
    && c in s && c.attr == attr && c.subkey == subkey && (kind == OfPort || c.incarnation == incarnation)
    && c.source in epochs && epochs[c.source] == c.epoch
    && forall o :: o in s && Restates(o, c) ==> o.sequence <= c.sequence
  }

  /** The same attribute of the same incarnation, stated by the same source epoch. */
  predicate Restates<V>(o: Claim<V>, c: Claim<V>) {
    && o.attr == c.attr && o.subkey == c.subkey && o.source == c.source && o.epoch == c.epoch
    && o.incarnation == c.incarnation
  }

  /** The entry as an answer shows it. */
  function AsLive<V>(c: Claim<V>): Claim<V> { c.(live := true) }

  /** The group an answer gives for one attribute. */
  function AnswerFor<V(==)>(kind: ClaimKind, s: seq<Claim<V>>, incarnation: nat, epochs: map<nat, nat>, attr: nat,
                            subkey: Text): Group<V>
  {
    GroupOf(LiveView(kind, s, incarnation, epochs), GroupKey(attr, subkey))
  }

  lemma UnshadowedStands<V(!new)>(kind: ClaimKind, s: seq<Claim<V>>, incarnation: nat, epochs: map<nat, nat>, attr: nat,
                                  subkey: Text, c: Claim<V>)
    requires OneSubject(kind, s) && c in s
    ensures Stands(kind, s, incarnation, epochs, attr, subkey, c) <==>
            && c.attr == attr && c.subkey == subkey && Selected(kind, c, incarnation) && !Shadowed(kind, s, c)
            && A.SourceIsLive(epochs, c.source, c.epoch)
  {
    var i :| 0 <= i < |s| && s[i] == c;
    if Shadowed(kind, s, c) {
      var j :| 0 <= j < |s| && Shadows(kind, s[j], c);
      assert s[j] in s;
    } else {
      forall o | o in s && Restates(o, c) ensures o.sequence <= c.sequence {
        var j :| 0 <= j < |s| && s[j] == o;
        assert !Shadows(kind, s[j], c);
      }
    }
  }

  /** The live entries of the view for an attribute are those that stand. */
  lemma LiveStands<V(!new)>(kind: ClaimKind, s: seq<Claim<V>>, incarnation: nat, epochs: map<nat, nat>, attr: nat,
                            subkey: Text, x: Claim<V>)
    requires OneSubject(kind, s)
    ensures x in Filter(Members(LiveView(kind, s, incarnation, epochs), GroupKey(attr, subkey)), IsLive) <==>
            exists c :: Stands(kind, s, incarnation, epochs, attr, subkey, c) && x == AsLive(c)
  {
    hide Filter, Shadowed, OneSubject, Stands, ViewPart, A.SourceIsLive;
    var view := LiveView(kind, s, incarnation, epochs);
    var kept := Filter(Filter(s, Unrevised(kind, s, incarnation)), FromLive(epochs));
    LivePart(kind, s, s, incarnation, epochs);
    assert x in Filter(Members(view, GroupKey(attr, subkey)), IsLive) <==>
           x in Filter(view, IsLive) && KeyOf(x) == GroupKey(attr, subkey);
    LitMembers(kept, x);
    forall c ensures c in kept <==> c in s && Unrevised(kind, s, incarnation)(c) && FromLive<V>(epochs)(c) {
    }
    if x in Lit(kept) && KeyOf(x) == GroupKey(attr, subkey) {
      var c :| c in kept && x == AsLive(c);
      UnshadowedStands(kind, s, incarnation, epochs, attr, subkey, c);
    }
    if c :| Stands(kind, s, incarnation, epochs, attr, subkey, c) && x == AsLive(c) {
      StandsIn(kind, s, incarnation, epochs, attr, subkey, c);
      UnshadowedStands(kind, s, incarnation, epochs, attr, subkey, c);
    }
  }

  lemma StandsIn<V(!new)>(kind: ClaimKind, s: seq<Claim<V>>, incarnation: nat, epochs: map<nat, nat>, attr: nat,
                          subkey: Text, c: Claim<V>)
    requires Stands(kind, s, incarnation, epochs, attr, subkey, c)
    ensures c in s
  {
  }

  lemma LitMembers<V(!new)>(s: seq<Claim<V>>, x: Claim<V>)
    ensures x in Lit(s) <==> exists c :: c in s && x == AsLive(c)
  {
    var lit := Lit(s);
    if x in lit {
      var i :| 0 <= i < |lit| && lit[i] == x;
      assert s[i] in s;
    }
    if c :| c in s && x == AsLive(c) {
      var i :| 0 <= i < |s| && s[i] == c;
      assert lit[i] == x;
    }
  }

  /** One source stands behind one entry at most. */
  lemma OneStatement<V(!new)>(kind: ClaimKind, s: seq<Claim<V>>, incarnation: nat, epochs: map<nat, nat>, attr: nat,
                              subkey: Text, a: Claim<V>, b: Claim<V>)
    requires Orderly(s) && OneSubject(kind, s)
    requires Stands(kind, s, incarnation, epochs, attr, subkey, a)
             && Stands(kind, s, incarnation, epochs, attr, subkey, b)
    requires a.source == b.source
    ensures a == b
  {
    var i :| 0 <= i < |s| && s[i] == a;
    var j :| 0 <= j < |s| && s[j] == b;
    assert a.incarnation == b.incarnation;
  }

  /** The live list of an answer: exactly the entries that stand, each source at most once. */
  lemma AnswerClaims<V(!new)>(kind: ClaimKind, s: seq<Claim<V>>, incarnation: nat, epochs: map<nat, nat>, attr: nat,
                              subkey: Text)
    requires Orderly(s) && OneSubject(kind, s)
    ensures var g := AnswerFor(kind, s, incarnation, epochs, attr, subkey);
      && (forall x :: x in g.claims <==>
            exists c :: Stands(kind, s, incarnation, epochs, attr, subkey, c) && x == AsLive(c))
      && (forall i, j :: 0 <= i < j < |g.claims| ==> g.claims[i].source != g.claims[j].source)
  {
    hide Filter, Orderly, OneSubject, Stands, ViewPart, NewestOf, SupersededOf, OutcomeOf, ValueOf;
    var members := Members(LiveView(kind, s, incarnation, epochs), GroupKey(attr, subkey));
    var live := Filter(members, IsLive);
    var newest := NewestOf(members);
    NewestPerOrigin(members);
    forall x
      ensures x in newest <==> exists c :: Stands(kind, s, incarnation, epochs, attr, subkey, c) && x == AsLive(c)
    {
      LiveStands(kind, s, incarnation, epochs, attr, subkey, x);
      if c :| Stands(kind, s, incarnation, epochs, attr, subkey, c) && x == AsLive(c) {
        assert SpokenFor(newest, x);
        var i :| 0 <= i < |newest| && SameOrigin(newest[i], x) && x.sequence <= newest[i].sequence;
        SpeaksForItself(kind, s, incarnation, epochs, attr, subkey, c, newest[i]);
      }
    }
    forall i, j | 0 <= i < j < |newest| ensures newest[i].source != newest[j].source {
      DifferentSources(kind, s, incarnation, epochs, attr, subkey, newest, i, j);
    }
  }

  lemma SpeaksForItself<V(!new)>(kind: ClaimKind, s: seq<Claim<V>>, incarnation: nat, epochs: map<nat, nat>, attr: nat,
                                 subkey: Text, c: Claim<V>, y: Claim<V>)
    requires Orderly(s) && OneSubject(kind, s) && Stands(kind, s, incarnation, epochs, attr, subkey, c)
    requires y in Filter(Members(LiveView(kind, s, incarnation, epochs), GroupKey(attr, subkey)), IsLive)
    requires SameOrigin(y, AsLive(c))
    ensures y == AsLive(c)
  {
    hide Filter, Orderly, OneSubject, Stands, ViewPart;
    LiveStands(kind, s, incarnation, epochs, attr, subkey, y);
    var d :| Stands(kind, s, incarnation, epochs, attr, subkey, d) && y == AsLive(d);
    OneStatement(kind, s, incarnation, epochs, attr, subkey, c, d);
  }

  lemma DifferentSources<V(!new)>(kind: ClaimKind, s: seq<Claim<V>>, incarnation: nat, epochs: map<nat, nat>, attr: nat,
                                  subkey: Text, newest: seq<Claim<V>>, i: nat, j: nat)
    requires OneSubject(kind, s) && i < j < |newest| && OnePerOrigin(newest)
    requires forall x :: x in newest ==>
               x in Filter(Members(LiveView(kind, s, incarnation, epochs), GroupKey(attr, subkey)), IsLive)
    ensures newest[i].source != newest[j].source
  {
    hide Filter, OneSubject, ViewPart;
    assert newest[i] in newest && newest[j] in newest;
    LiveStands(kind, s, incarnation, epochs, attr, subkey, newest[i]);
    LiveStands(kind, s, incarnation, epochs, attr, subkey, newest[j]);
    assert !SameOrigin(newest[i], newest[j]);
  }

  /** Some entry of the subject's incarnation states the attribute, standing or not. */
  ghost predicate Stated<V(!new)>(kind: ClaimKind, s: seq<Claim<V>>, incarnation: nat, attr: nat, subkey: Text) {
    exists c :: c in s && c.attr == attr && c.subkey == subkey && (kind == OfPort || c.incarnation == incarnation)
  }

  /**
   * An answer, in full. It has a group for exactly the attributes stated of the subject; the group's outcome and value
   * are decided by the values of the entries that stand.
   */
  lemma AnswerExactly<V(!new)>(kind: ClaimKind, s: seq<Claim<V>>, incarnation: nat, epochs: map<nat, nat>, attr: nat,
                               subkey: Text)
    requires Orderly(s) && OneSubject(kind, s)
    ensures var answer := Build(LiveView(kind, s, incarnation, epochs));
      var g := AnswerFor(kind, s, incarnation, epochs, attr, subkey);
      && (Stated(kind, s, incarnation, attr, subkey) <==>
          exists h :: h in answer && h.key == GroupKey(attr, subkey))
      && (forall h :: h in answer && h.key == GroupKey(attr, subkey) ==> h == g)
      && (Stated(kind, s, incarnation, attr, subkey) ==>
          && g.outcome != Unknown
          && (g.outcome == Conflicting <==> Disputed(kind, s, incarnation, epochs, attr, subkey))
          && (g.outcome == Superseded <==> forall c :: !Stands(kind, s, incarnation, epochs, attr, subkey, c))
          && (g.outcome == SingleSource <==> Single(kind, s, incarnation, epochs, attr, subkey))
          && (g.value.Some? <==> g.outcome == SingleSource || g.outcome == Agreed)
          && (g.value.Some? ==>
                forall c :: Stands(kind, s, incarnation, epochs, attr, subkey, c) ==> c.value == g.value.value))
  {
    hide Stands, ViewPart, GroupOf, Keys, Orderly, OneSubject, Build;
    var view := LiveView(kind, s, incarnation, epochs);
    var k := GroupKey(attr, subkey);
    KeysStated(kind, s, incarnation, epochs, attr, subkey);
    GroupsExactly(view, k);
    AnswerClaims(kind, s, incarnation, epochs, attr, subkey);
    if Stated(kind, s, incarnation, attr, subkey) {
      OutcomeStands(kind, s, incarnation, epochs, attr, subkey);
      GroupIsKnown(view, k);
    }
  }

  lemma GroupIsKnown<V(!new)>(claims: seq<Claim<V>>, k: GroupKey)
    requires k in Keys(claims)
    ensures GroupOf(claims, k).outcome != Unknown
  {
    hide GroupOf, Keys;
    OutcomeMeaning(claims, k);
  }

  /** Two standing entries give different values. */
  ghost predicate Disputed<V(!new)>(kind: ClaimKind, s: seq<Claim<V>>, incarnation: nat, epochs: map<nat, nat>,
                                    attr: nat,
                                    subkey: Text)
  {
    exists a, b :: Stands(kind, s, incarnation, epochs, attr, subkey, a)
                   && Stands(kind, s, incarnation, epochs, attr, subkey, b) && a.value != b.value
  }

  /** Exactly one entry stands. */
  ghost predicate Single<V(!new)>(kind: ClaimKind, s: seq<Claim<V>>, incarnation: nat, epochs: map<nat, nat>, attr: nat,
                                  subkey: Text)
  {
    exists a :: Stands(kind, s, incarnation, epochs, attr, subkey, a)
                && forall b :: Stands(kind, s, incarnation, epochs, attr, subkey, b) ==> b.source == a.source
  }

  lemma KeysStated<V(!new)>(kind: ClaimKind, s: seq<Claim<V>>, incarnation: nat, epochs: map<nat, nat>, attr: nat,
                            subkey: Text)
    ensures GroupKey(attr, subkey) in Keys(LiveView(kind, s, incarnation, epochs)) <==>
            Stated(kind, s, incarnation, attr, subkey)
  {
    hide ViewPart, Keys;
    ViewHasKey(kind, s, incarnation, epochs, GroupKey(attr, subkey));
    if c :| c in s && Selected(kind, c, incarnation) && KeyOf(c) == GroupKey(attr, subkey) {
      assert c.attr == attr && c.subkey == subkey;
    }
    if c :| c in s && c.attr == attr && c.subkey == subkey && (kind == OfPort || c.incarnation == incarnation) {
      assert Selected(kind, c, incarnation) && KeyOf(c) == GroupKey(attr, subkey);
    }
  }

  lemma GroupsExactly<V(!new)>(claims: seq<Claim<V>>, k: GroupKey)
    ensures k in Keys(claims) <==> exists h :: h in Build(claims) && h.key == k
    ensures forall h :: h in Build(claims) && h.key == k ==> h == GroupOf(claims, k)
  {
    hide GroupOf, Keys;
    var keys, groups := Keys(claims), Build(claims);
    forall i | 0 <= i < |keys| ensures groups[i] == GroupOf(claims, keys[i]) && groups[i].key == keys[i] {
      GroupAt(claims, keys, i);
    }
    if k in keys {
      var i :| 0 <= i < |keys| && keys[i] == k;
      assert groups[i] in groups;
    }
  }

  lemma {:induction false} GroupAt<V(!new)>(claims: seq<Claim<V>>, keys: seq<GroupKey>, i: nat)
    requires i < |keys|
    ensures GroupsFor(claims, keys)[i] == GroupOf(claims, keys[i]) && GroupOf(claims, keys[i]).key == keys[i]
  {
    if i < |keys| - 1 {
      hide GroupOf;
      GroupAt(claims, keys[..|keys| - 1], i);
    }
  }

  lemma OutcomeStands<V(!new)>(kind: ClaimKind, s: seq<Claim<V>>, incarnation: nat, epochs: map<nat, nat>, attr: nat,
                               subkey: Text)
    requires Orderly(s) && OneSubject(kind, s)
    requires GroupKey(attr, subkey) in Keys(LiveView(kind, s, incarnation, epochs))
    ensures var g := AnswerFor(kind, s, incarnation, epochs, attr, subkey);
      && (g.outcome == Conflicting <==> Disputed(kind, s, incarnation, epochs, attr, subkey))
      && (g.outcome == Superseded <==> forall c :: !Stands(kind, s, incarnation, epochs, attr, subkey, c))
      && (g.outcome == SingleSource <==> Single(kind, s, incarnation, epochs, attr, subkey))
      && (g.value.Some? <==> g.outcome == SingleSource || g.outcome == Agreed)
      && (g.value.Some? ==> forall c :: Stands(kind, s, incarnation, epochs, attr, subkey, c) ==>
          c.value == g.value.value)
  {
    hide Stands, ViewPart, GroupOf, Keys, Orderly, OneSubject, Filter;
    var g := AnswerFor(kind, s, incarnation, epochs, attr, subkey);
    AnswerClaims(kind, s, incarnation, epochs, attr, subkey);
    OutcomeMeaning(LiveView(kind, s, incarnation, epochs), GroupKey(attr, subkey));
    NoneLive(kind, s, incarnation, epochs, attr, subkey);
    DisputeExactly(kind, s, incarnation, epochs, attr, subkey, g.claims);
    SingleExactly(kind, s, incarnation, epochs, attr, subkey, g.claims);
    forall c | g.value.Some? && Stands(kind, s, incarnation, epochs, attr, subkey, c) ensures c.value == g.value.value {
      assert AsLive(c) in g.claims;
    }
  }

  lemma NoneLive<V(!new)>(kind: ClaimKind, s: seq<Claim<V>>, incarnation: nat, epochs: map<nat, nat>, attr: nat,
                          subkey: Text)
    requires OneSubject(kind, s)
    ensures (forall c :: c in Members(LiveView(kind, s, incarnation, epochs), GroupKey(attr, subkey)) ==> !c.live) <==>
            forall c :: !Stands(kind, s, incarnation, epochs, attr, subkey, c)
  {
    hide Stands, ViewPart, OneSubject, Filter;
    var members := Members(LiveView(kind, s, incarnation, epochs), GroupKey(attr, subkey));
    if c :| Stands(kind, s, incarnation, epochs, attr, subkey, c) {
      LiveStands(kind, s, incarnation, epochs, attr, subkey, AsLive(c));
      assert AsLive(c) in Filter(members, IsLive);
    }
    if c :| c in members && c.live {
      assert c in Filter(members, IsLive);
      LiveStands(kind, s, incarnation, epochs, attr, subkey, c);
    }
  }

  lemma DisputeExactly<V(!new)>(kind: ClaimKind, s: seq<Claim<V>>, incarnation: nat, epochs: map<nat, nat>, attr: nat,
                                subkey: Text, claims: seq<Claim<V>>)
    requires forall x :: x in claims <==>
               exists c :: Stands(kind, s, incarnation, epochs, attr, subkey, c) && x == AsLive(c)
    ensures (exists i, j :: 0 <= i < j < |claims| && claims[i].value != claims[j].value) <==>
            Disputed(kind, s, incarnation, epochs, attr, subkey)
  {
    hide Stands;
    if i, j :| 0 <= i < j < |claims| && claims[i].value != claims[j].value {
      assert claims[i] in claims && claims[j] in claims;
      var a :| Stands(kind, s, incarnation, epochs, attr, subkey, a) && claims[i] == AsLive(a);
      var b :| Stands(kind, s, incarnation, epochs, attr, subkey, b) && claims[j] == AsLive(b);
    }
    if a, b :| Stands(kind, s, incarnation, epochs, attr, subkey, a)
               && Stands(kind, s, incarnation, epochs, attr, subkey, b) && a.value != b.value
    {
      assert AsLive(a) in claims && AsLive(b) in claims;
      DifferAt(claims, AsLive(a), AsLive(b));
    }
  }

  lemma DifferAt<V>(claims: seq<Claim<V>>, a: Claim<V>, b: Claim<V>)
    requires a in claims && b in claims && a.value != b.value
    ensures exists i, j :: 0 <= i < j < |claims| && claims[i].value != claims[j].value
  {
    var i :| 0 <= i < |claims| && claims[i] == a;
    var j :| 0 <= j < |claims| && claims[j] == b;
    assert claims[if i < j then i else j].value != claims[if i < j then j else i].value;
  }

  lemma SingleExactly<V(!new)>(kind: ClaimKind, s: seq<Claim<V>>, incarnation: nat, epochs: map<nat, nat>, attr: nat,
                               subkey: Text, claims: seq<Claim<V>>)
    requires forall x :: x in claims <==>
               exists c :: Stands(kind, s, incarnation, epochs, attr, subkey, c) && x == AsLive(c)
    requires forall i, j :: 0 <= i < j < |claims| ==> claims[i].source != claims[j].source
    ensures |claims| == 1 <==> Single(kind, s, incarnation, epochs, attr, subkey)
  {
    hide Stands;
    if |claims| == 1 {
      assert claims[0] in claims;
      var a :| Stands(kind, s, incarnation, epochs, attr, subkey, a) && claims[0] == AsLive(a);
      forall b | Stands(kind, s, incarnation, epochs, attr, subkey, b) ensures b.source == a.source {
        assert AsLive(b) in claims;
      }
    }
    if Single(kind, s, incarnation, epochs, attr, subkey) {
      var a :| Stands(kind, s, incarnation, epochs, attr, subkey, a)
               && forall b :: Stands(kind, s, incarnation, epochs, attr, subkey, b) ==> b.source == a.source;
      assert AsLive(a) in claims;
      forall k | 0 <= k < |claims| ensures claims[k].source == a.source {
        assert claims[k] in claims;
        var b :| Stands(kind, s, incarnation, epochs, attr, subkey, b) && claims[k] == AsLive(b);
      }
      OtherSpeaker(claims, a.source);
    }
  }

  lemma OtherSpeaker<V>(claims: seq<Claim<V>>, source: nat)
    requires forall i, j :: 0 <= i < j < |claims| ==> claims[i].source != claims[j].source
    ensures |claims| <= 1 || exists k :: 0 <= k < |claims| && claims[k].source != source
  {
    if |claims| > 1 {
      assert claims[0].source != claims[1].source;
    }
  }

  /** What one source alone states is the answer. */
  lemma SoleStatementAnswers<V(!new)>(kind: ClaimKind, s: seq<Claim<V>>, incarnation: nat, epochs: map<nat, nat>,
                                      c: Claim<V>)
    requires Orderly(s) && OneSubject(kind, s)
    requires Stands(kind, s, incarnation, epochs, c.attr, c.subkey, c)
    requires forall d :: Stands(kind, s, incarnation, epochs, c.attr, c.subkey, d) ==> d.source == c.source
    ensures var g := AnswerFor(kind, s, incarnation, epochs, c.attr, c.subkey);
      && g in Build(LiveView(kind, s, incarnation, epochs))
      && g.claims == [AsLive(c)] && g.outcome == SingleSource && g.value == Some(c.value)
  {
    hide Stands, ViewPart, GroupOf, Orderly, OneSubject, Build;
    StandsIn(kind, s, incarnation, epochs, c.attr, c.subkey, c);
    IsStated(kind, s, incarnation, epochs, c);
    AnswerExactly(kind, s, incarnation, epochs, c.attr, c.subkey);
    AnswerClaims(kind, s, incarnation, epochs, c.attr, c.subkey);
    var g := AnswerFor(kind, s, incarnation, epochs, c.attr, c.subkey);
    SingleExactly(kind, s, incarnation, epochs, c.attr, c.subkey, g.claims);
    assert AsLive(c) in g.claims;
  }

  lemma IsStated<V(!new)>(kind: ClaimKind, s: seq<Claim<V>>, incarnation: nat, epochs: map<nat, nat>, c: Claim<V>)
    requires Stands(kind, s, incarnation, epochs, c.attr, c.subkey, c)
    ensures Stated(kind, s, incarnation, c.attr, c.subkey)
  {
  }
}
