/**
 * What a decision lists, which rules it considers, and what its digest covers: src/compatibility.cpp:265-345, 368-487.
 */
module Decisions {
  import opened Bytes
  import opened Ordering
  import opened Capability
  import opened Consensus
  import opened Compatibility
  import opened CompatibilityTheorems
  import Operators

  // ----- The rules considered -----

  /** Evaluated earlier: higher priority, or the same and the lower id. */
  predicate Outranks(a: Rule, b: Rule) { a.priority > b.priority || (a.priority == b.priority && a.id < b.id) }

  lemma PriorityOrder()
    ensures WeakOrder(ByPriority)
  {
  }

  /**
   * Of the rules in force exactly the highest-ranking are considered, as many as the query asks for, in the order of
   * their rank.
   */
  lemma ConsideredExactly(rules: seq<Rule>, maxRules: nat)
    ensures var c, n := Considered(rules, maxRules), |Filter(rules, InForce)|;
      && |c| == (if n < maxRules then n else maxRules)
      && (forall i, j :: 0 <= i < j < |c| ==> !Outranks(c[j], c[i]))
      && (forall r :: r in c ==> r in rules && r.live && r.enabled)
      && (forall r, x :: r in rules && r.live && r.enabled && r !in c && x in c ==> !Outranks(r, x))
  {
    hide Filter, Sort;
    var kept := Filter(rules, InForce);
    var sorted, c := Sort(kept, ByPriority), Considered(rules, maxRules);
    PriorityOrder();
    SortSorted(kept, ByPriority);
    forall r | r in c ensures r in rules && r.live && r.enabled {
      Operators.ConsideredIsInForce(rules, maxRules, r);
    }
    forall i, j | 0 <= i < j < |c| ensures !Outranks(c[j], c[i]) {
      assert !ByPriority(sorted[j], sorted[i]);
    }
    forall r, x | r in rules && r.live && r.enabled && r !in c && x in c ensures !Outranks(r, x) {
      Operators.FilteredMembers(rules, InForce, x) by { Operators.SortedMembers(kept, x); }
      KeptIsFiltered(rules, r);
      assert r in multiset(kept) && r in multiset(sorted);
      var j :| 0 <= j < |sorted| && sorted[j] == r;
      var i :| 0 <= i < |c| && c[i] == x;
      NotInFront(sorted, |c|, j);
      assert sorted[i] == x && i < j;
      assert !ByPriority(sorted[j], sorted[i]);
    }
  }

  lemma NotInFront(s: seq<Rule>, n: nat, j: nat)
    requires n <= |s| && j < |s| && s[j] !in s[..n]
    ensures j >= n
  {
  }

  lemma KeptIsFiltered(rules: seq<Rule>, r: Rule)
    requires r in rules && InForce(r)
    ensures r in Filter(rules, InForce)
  {
  }

  // ----- What is listed -----

  /** The record of a rule in a decision: the rule, and each of its requirements with its evaluation, in order. */
  predicate Shows(m: MatchedRule, r: Rule, resolver: Resolver) {
    && m.id == r.id && m.name == r.name && m.verdict == r.verdict && m.priority == r.priority
    && m.generation == r.generation && m.rationale == r.rationale && |m.requirements| == |r.requirements|
    && forall i :: 0 <= i < |m.requirements| ==> m.requirements[i] == Evaluate(r.requirements[i], resolver)
  }

  lemma ShowsOnly(m: MatchedRule, r: Rule, resolver: Resolver)
    ensures Shows(m, r, resolver) <==> m == Matched(r, resolver)
  {
    hide Evaluate;
    if Shows(m, r, resolver) {
      assert m.requirements == EvaluateAll(r.requirements, resolver);
    }
  }

  lemma InRecords(rules: seq<Rule>, p: Rule -> bool, resolver: Resolver, m: MatchedRule)
    ensures m in Records(Filter(rules, p), resolver) <==> exists r :: r in rules && p(r) && Shows(m, r, resolver)
  {
    hide Matched, Shows;
    var kept, records := Filter(rules, p), Records(Filter(rules, p), resolver);
    if m in records {
      var i :| 0 <= i < |records| && records[i] == m;
      assert kept[i] in kept;
      ShowsOnly(m, kept[i], resolver);
    }
    if r :| r in rules && p(r) && Shows(m, r, resolver) {
      var i :| 0 <= i < |kept| && kept[i] == r;
      ShowsOnly(m, r, resolver);
      assert records[i] == m;
    }
  }

  /**
   * The rules a decision names: those that brought its outcome about, or, undecided, the satisfied and the open ones.
   */
  predicate Named(r: Rule, outcome: CompatOutcome, resolver: Resolver) {
    match outcome
    case Incompatible => Hits(r, DenyVerdict, resolver)
    case Unsupported => Hits(r, UnsupportedVerdict, resolver)
    case Compatible => Hits(r, AllowVerdict, resolver)
    case UnknownCompat => Hits(r, AllowVerdict, resolver) || Undecided(r, resolver)
  }

  lemma MatchedExactly(query: Query, rules: seq<Rule>, resolver: Resolver, generation: nat, now: int, hash: Digest,
                       m: MatchedRule)
    ensures var d := Decide(query, rules, resolver, generation, now, hash);
      && (m in d.matchedRules <==>
          exists r :: r in Considered(rules, query.maxRules) && Named(r, d.outcome, resolver) && Shows(m, r, resolver))
      && d.consideredRules == |Considered(rules, query.maxRules)|
      && d.indeterminateRules == |Filter(Considered(rules, query.maxRules), Waiting(resolver))|
      && d.generation == generation && d.evaluatedAt == now && d.port == query.port && d.uid == query.uid
      && d.incarnation == query.incarnation
  {
    hide Filter, Considered, Hits, Undecided, Records, TallyRules, InputTokens, DecisionTokens, Shows;
    var c := Considered(rules, query.maxRules);
    TallyMeaning(c, resolver);
    InRecords(c, Hitting(DenyVerdict, resolver), resolver, m);
    InRecords(c, Hitting(UnsupportedVerdict, resolver), resolver, m);
    InRecords(c, Hitting(AllowVerdict, resolver), resolver, m);
    InRecords(c, Waiting(resolver), resolver, m);
    RecordCount(c, Waiting(resolver), resolver);
  }

  lemma RecordCount(rules: seq<Rule>, p: Rule -> bool, resolver: Resolver)
    ensures |Records(Filter(rules, p), resolver)| == |Filter(rules, p)|
  {
    hide Filter;
  }

  /** Some considered rule has a requirement with this evaluation. */
  ghost predicate Evaluated(rules: seq<Rule>, resolver: Resolver, e: Evaluation) {
    exists r, i :: r in rules && 0 <= i < |r.requirements| && e == Evaluate(r.requirements[i], resolver)
  }

  lemma EvaluatedHere(r: Rule, resolver: Resolver, e: Evaluation)
    ensures e in EvaluateAll(r.requirements, resolver) <==> Evaluated([r], resolver, e)
  {
    hide Evaluate;
    var all := EvaluateAll(r.requirements, resolver);
    if e in all {
      var i :| 0 <= i < |all| && all[i] == e;
      assert r in [r];
    }
    if q, i :| q in [r] && 0 <= i < |q.requirements| && e == Evaluate(q.requirements[i], resolver) {
      assert q == r && all[i] == e;
    }
  }

  lemma EvaluatedNext(front: seq<Rule>, rule: Rule, resolver: Resolver, e: Evaluation)
    ensures Evaluated(front + [rule], resolver, e) <==>
            Evaluated(front, resolver, e) || Evaluated([rule], resolver, e)
  {
    hide Evaluate;
    assert rule in [rule] && rule in front + [rule];
    if q, i :| q in front && 0 <= i < |q.requirements| && e == Evaluate(q.requirements[i], resolver) {
      assert q in front + [rule];
    }
  }

  lemma OpenMeansUndecided(r: Rule, resolver: Resolver, e: Evaluation)
    requires e in EvaluateAll(r.requirements, resolver) && IsIndeterminate(e)
    ensures Undecided(r, resolver) && !AllSatisfied(r, resolver)
  {
    hide Evaluate;
    var i :| 0 <= i < |r.requirements| && EvaluateAll(r.requirements, resolver)[i] == e;
    assert IsIndeterminate(Evaluate(r.requirements[i], resolver));
  }

  /** What one rule adds to the two lists. */
  lemma ListedHere(t: Tally, rule: Rule, resolver: Resolver, e: Evaluation)
    ensures e in TallyRule(t, rule, resolver).violated <==>
            e in t.violated || (Evaluated([rule], resolver, e) && e.state == Violated)
    ensures e in TallyRule(t, rule, resolver).unmet <==>
            e in t.unmet || (Evaluated([rule], resolver, e) && e.state == Indeterminate)
  {
    EvaluatedHere(rule, resolver, e);
    if e in EvaluateAll(rule.requirements, resolver) && IsIndeterminate(e) {
      OpenMeansUndecided(rule, resolver, e);
    }
    hide Filter, Evaluated, AllSatisfied, Undecided, EvaluateAll;
  }

  lemma {:induction false} ListedExactly(rules: seq<Rule>, resolver: Resolver, e: Evaluation)
    ensures e in TallyRules(rules, resolver).violated <==> Evaluated(rules, resolver, e) && e.state == Violated
    ensures e in TallyRules(rules, resolver).unmet <==> Evaluated(rules, resolver, e) && e.state == Indeterminate
  {
    hide *;
    if rules == [] {
      NothingListed(resolver, e);
    } else {
      var front, rule := rules[..|rules| - 1], rules[|rules| - 1];
      ListedExactly(front, resolver, e);
      assert rules == front + [rule];
      TallyRulesLast(front, rule, resolver);
      EvaluatedNext(front, rule, resolver, e);
      ListedHere(TallyRules(front, resolver), rule, resolver, e);
    }
  }

  lemma NothingListed(resolver: Resolver, e: Evaluation)
    ensures TallyRules([], resolver).violated == [] && TallyRules([], resolver).unmet == []
    ensures !Evaluated([], resolver, e)
  {
  }

  /** A decision reports every violated and every undetermined requirement of the rules it considered, and no other. */
  lemma ReportedExactly(query: Query, rules: seq<Rule>, resolver: Resolver, generation: nat, now: int, hash: Digest,
                        e: Evaluation)
    ensures var d := Decide(query, rules, resolver, generation, now, hash);
      && (e in d.violated <==>
          Evaluated(Considered(rules, query.maxRules), resolver, e) && e.state == Violated)
      && (e in d.unmet <==>
          Evaluated(Considered(rules, query.maxRules), resolver, e) && e.state == Indeterminate)
  {
    hide Considered, TallyRules, InputTokens, DecisionTokens, Evaluated;
    ListedExactly(Considered(rules, query.maxRules), resolver, e);
  }

  // ----- What the digests cover -----

  /** Same rules named, in the same order. */
  predicate SameNames(a: seq<MatchedRule>, b: seq<MatchedRule>) {
    && |a| == |b|
    && forall i :: 0 <= i < |a| ==> a[i].id == b[i].id && a[i].name == b[i].name && a[i].verdict == b[i].verdict
  }

  lemma {:induction false} MatchedLength(rules: seq<MatchedRule>)
    ensures |MatchedTokens(rules)| == 8 * |rules|
  {
    if rules != [] {
      MatchedLength(rules[..|rules| - 1]);
    }
  }

  lemma {:induction false} MatchedTell(a: seq<MatchedRule>, b: seq<MatchedRule>)
    requires |a| == |b| && MatchedTokens(a) == MatchedTokens(b)
    ensures SameNames(a, b)
  {
    if a != [] {
      var n := |a| - 1;
      MatchedLength(a[..n]);
      MatchedLength(b[..n]);
      var s, t := MatchedTokens(a), MatchedTokens(b);
      assert s[..8 * n] == MatchedTokens(a[..n]) && t[..8 * n] == MatchedTokens(b[..n]);
      MatchedTell(a[..n], b[..n]);
      assert s[8 * n + 2] == Integer(a[n].id) && t[8 * n + 2] == Integer(b[n].id);
      assert s[8 * n + 4] == TextToken(a[n].name) && t[8 * n + 4] == TextToken(b[n].name);
      assert s[8 * n + 6] == Integer(VerdictCode(a[n].verdict)) && t[8 * n + 6] == Integer(VerdictCode(b[n].verdict));
      forall i | 0 <= i < |a| ensures a[i].id == b[i].id && a[i].name == b[i].name && a[i].verdict == b[i].verdict {
        assert i < n ==> a[..n][i] == a[i] && b[..n][i] == b[i];
      }
    }
  }

  /**
   * The document behind a decision digest tells the outcome, the closure, how many rules were considered, the
   * generation, the inputs digest, the rules named, and the module incarnation.
   */
  lemma DecisionTokensTell(o: CompatOutcome, p: CompatOutcome, c: Closure, d: Closure, m: nat, n: nat, g: nat, h: nat,
                           x: Text, y: Text, a: seq<MatchedRule>, b: seq<MatchedRule>, q: Query, r: Query)
    requires DecisionTokens(o, c, m, g, x, a, q) == DecisionTokens(p, d, n, h, y, b, r)
    ensures o == p && c == d && m == n && g == h && x == y && SameNames(a, b) && q.uid == r.uid
    ensures q.incarnation == r.incarnation
  {
    var s, t := DecisionTokens(o, c, m, g, x, a, q), DecisionTokens(p, d, n, h, y, b, r);
    hide MatchedTokens, SameNames;
    assert s[2] == t[2] && s[4] == t[4] && s[6] == t[6] && s[8] == t[8] && s[10] == t[10];
    MatchedLength(a);
    MatchedLength(b);
    var k := 8 * |a|;
    assert s[11..11 + k] == MatchedTokens(a) && t[11..11 + k] == MatchedTokens(b);
    MatchedTell(a, b);
    assert s[11 + k + 2] == t[11 + k + 2] && s[11 + k + 4] == t[11 + k + 4] && s[11 + k + 6] == t[11 + k + 6];
  }

  /** The document behind an inputs digest tells the port and the module incarnation asked about. */
  lemma InputTokensTell(q: Query, r: Query, rules: seq<Rule>, a: Resolver, b: Resolver)
    requires InputTokens(q, rules, a) == InputTokens(r, rules, b)
    ensures q.port == r.port && q.uid == r.uid && q.incarnation == r.incarnation
  {
    hide References, AllReferenceTokens;
    var s, t := InputTokens(q, rules, a), InputTokens(r, rules, b);
    assert s[2] == t[2] && s[4] == t[4] && s[|s| - 2] == t[|t| - 2];
  }
}
