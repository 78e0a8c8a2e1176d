/** What a compatibility decision means, and what it does not depend on. */
module CompatibilityTheorems {
  import opened Bytes
  import opened Provenances
  import opened Ordering
  import opened Capability
  import opened Consensus
  import opened Compatibility

  // ----- The lists, rule by rule -----

  /** The rule is satisfied in full and asserts this verdict. */
  predicate Hits(rule: Rule, verdict: Verdict, resolver: Resolver) {
    rule.verdict == verdict && AllSatisfied(rule, resolver)
  }

  function Hitting(verdict: Verdict, resolver: Resolver): Rule -> bool { (r: Rule) => Hits(r, verdict, resolver) }

  function Waiting(resolver: Resolver): Rule -> bool { (r: Rule) => Undecided(r, resolver) }

  function Records(rules: seq<Rule>, resolver: Resolver): seq<MatchedRule> {
    seq(|rules|, i requires 0 <= i < |rules| => Matched(rules[i], resolver))
  }

  lemma RecordsLast(front: seq<Rule>, rule: Rule, resolver: Resolver)
    ensures Records(front + [rule], resolver) == Records(front, resolver) + [Matched(rule, resolver)]
  {
  }

  ghost predicate TallyIs(t: Tally, rules: seq<Rule>, resolver: Resolver) {
    && t.denies == Records(Filter(rules, Hitting(DenyVerdict, resolver)), resolver)
    && t.unsupported == Records(Filter(rules, Hitting(UnsupportedVerdict, resolver)), resolver)
    && t.allows == Records(Filter(rules, Hitting(AllowVerdict, resolver)), resolver)
    && t.undecided == Records(Filter(rules, Waiting(resolver)), resolver)
  }

  lemma SatisfiedIsDecided(rule: Rule, resolver: Resolver)
    ensures !(AllSatisfied(rule, resolver) && Undecided(rule, resolver))
  {
  }

  lemma ListLast(front: seq<Rule>, rule: Rule, p: Rule -> bool, resolver: Resolver)
    ensures Records(Filter(front + [rule], p), resolver)
         == Records(Filter(front, p), resolver) + (if p(rule) then [Matched(rule, resolver)] else [])
  {
    hide Filter, Matched;
    FilterLast(front, rule, p);
    if p(rule) {
      RecordsLast(Filter(front, p), rule, resolver);
    }
  }

  lemma TallyStep(t: Tally, front: seq<Rule>, rule: Rule, resolver: Resolver)
    requires TallyIs(t, front, resolver)
    ensures TallyIs(TallyRule(t, rule, resolver), front + [rule], resolver)
  {
    hide Filter, Records, Matched, AllSatisfied, Undecided;
    SatisfiedIsDecided(rule, resolver);
    ListLast(front, rule, Hitting(DenyVerdict, resolver), resolver);
    ListLast(front, rule, Hitting(UnsupportedVerdict, resolver), resolver);
    ListLast(front, rule, Hitting(AllowVerdict, resolver), resolver);
    ListLast(front, rule, Waiting(resolver), resolver);
  }

  lemma TallyOfNothing(resolver: Resolver)
    ensures TallyIs(TallyRules([], resolver), [], resolver)
  {
  }

  /** Each list holds, in evaluation order, exactly the rules of its kind. */
  lemma {:induction false} TallyMeaning(rules: seq<Rule>, resolver: Resolver)
    ensures TallyIs(TallyRules(rules, resolver), rules, resolver)
  {
    hide *;
    if rules == [] {
      TallyOfNothing(resolver);
    } else {
      var front, rule := rules[..|rules| - 1], rules[|rules| - 1];
      TallyMeaning(front, resolver);
      TallyStep(TallyRules(front, resolver), front, rule, resolver);
      TallyRulesLast(front, rule, resolver);
      assert rules == front + [rule];
    }
  }

  lemma RecordsEmpty(rules: seq<Rule>, p: Rule -> bool, resolver: Resolver)
    ensures Records(Filter(rules, p), resolver) == [] <==> forall r :: r in rules ==> !p(r)
  {
    if Filter(rules, p) != [] {
      assert Filter(rules, p)[0] in Filter(rules, p);
    }
  }

  /** The outcome, exactly: deny over unsupported over (allow and nothing undecided) over unknown. */
  lemma OutcomeExact(query: Query, rules: seq<Rule>, resolver: Resolver, generation: nat, now: int, hash: Digest)
    ensures var considered := Considered(rules, query.maxRules);
      var outcome := Decide(query, rules, resolver, generation, now, hash).outcome;
      var deny := exists r :: r in considered && Hits(r, DenyVerdict, resolver);
      var unsupported := exists r :: r in considered && Hits(r, UnsupportedVerdict, resolver);
      var allow := exists r :: r in considered && Hits(r, AllowVerdict, resolver);
      var undecided := exists r :: r in considered && Undecided(r, resolver);
      && (outcome == Incompatible <==> deny)
      && (outcome == CompatOutcome.Unsupported <==> !deny && unsupported)
      && (outcome == Compatible <==> !deny && !unsupported && allow && !undecided)
      && (outcome == UnknownCompat <==> !deny && !unsupported && (!allow || undecided))
  {
    hide Filter, Considered, AllSatisfied, Undecided, Records, TallyRules, InputTokens, DecisionTokens;
    var considered := Considered(rules, query.maxRules);
    TallyMeaning(considered, resolver);
    RecordsEmpty(considered, Hitting(DenyVerdict, resolver), resolver);
    RecordsEmpty(considered, Hitting(UnsupportedVerdict, resolver), resolver);
    RecordsEmpty(considered, Hitting(AllowVerdict, resolver), resolver);
    RecordsEmpty(considered, Waiting(resolver), resolver);
  }

  /** Compatible is never said while a considered rule has a requirement nobody can evaluate. */
  lemma CompatibleNeedsKnowledge(query: Query, rules: seq<Rule>, resolver: Resolver, generation: nat, now: int,
                                 hash: Digest, r: Rule, i: nat)
    requires Decide(query, rules, resolver, generation, now, hash).outcome == Compatible
    requires r in Considered(rules, query.maxRules) && i < |r.requirements|
    ensures !IsIndeterminate(Evaluate(r.requirements[i], resolver))
  {
    hide Considered, Evaluate, Decide;
    OutcomeExact(query, rules, resolver, generation, now, hash);
    assert !Undecided(r, resolver);
  }

  // ----- Order independence -----

  ghost predicate UniqueIds(rules: seq<Rule>) {
    forall i, j :: 0 <= i < j < |rules| ==> rules[i].id != rules[j].id
  }

  lemma {:induction false} UniqueIdsOnce(rules: seq<Rule>, r: Rule)
    requires UniqueIds(rules)
    ensures multiset(rules)[r] <= 1
  {
    if rules != [] {
      var front := rules[..|rules| - 1];
      assert rules == front + [rules[|rules| - 1]];
      UniqueIdsOnce(front, r);
      assert rules[|rules| - 1] !in front;
    }
  }

  lemma UniqueIdsPair(rules: seq<Rule>, x: Rule, y: Rule)
    requires UniqueIds(rules) && x in rules && y in rules && x != y
    ensures ByPriority(x, y) || ByPriority(y, x)
  {
    var i :| 0 <= i < |rules| && rules[i] == x;
    var j :| 0 <= j < |rules| && rules[j] == y;
    assert x.id != y.id;
  }

  lemma ConsideredOrderFree(a: seq<Rule>, b: seq<Rule>, maxRules: nat)
    requires multiset(a) == multiset(b) && UniqueIds(a)
    ensures Considered(a, maxRules) == Considered(b, maxRules)
  {
    hide Filter, Sort, UniqueIds;
    FilterPermutation(a, b, InForce);
    var u := Filter(a, InForce);
    forall x | x in multiset(u) ensures multiset(u)[x] == 1 {
      FilterCount(a, InForce, x);
      UniqueIdsOnce(a, x);
    }
    forall x, y | x in u && y in u && x != y ensures ByPriority(x, y) || ByPriority(y, x) {
      UniqueIdsPair(a, x, y);
    }
    assert WeakOrder(ByPriority);
    SortCanonical(u, Filter(b, InForce), ByPriority);
  }

  lemma ReferenceOrder()
    ensures TotalOrder(ReferenceLess)
  {
    forall x: Reference, y: Reference
      ensures x == y || ReferenceLess(x, y) || ReferenceLess(y, x)
      ensures ReferenceLess(x, y) ==> !ReferenceLess(y, x)
    {
      TextLessTotal(x.subkey, y.subkey);
    }
    forall x: Reference, y: Reference, z: Reference | ReferenceLess(x, y) && ReferenceLess(y, z)
      ensures ReferenceLess(x, z)
    {
      if x.subject == y.subject == z.subject && x.key == y.key == z.key {
        TextLessTransitive(x.subkey, y.subkey, z.subkey);
      }
    }
  }

  ghost predicate Mentions(rule: Rule, ref: Reference) {
    exists i :: 0 <= i < |rule.requirements| && ReferenceOf(rule.requirements[i]) == ref
  }

  lemma {:induction false} AddReferencesMeaning(refs: seq<Reference>, requirements: seq<Requirement>, ref: Reference)
    requires StrictlySorted(refs, ReferenceLess)
    ensures StrictlySorted(AddReferences(refs, requirements), ReferenceLess)
    ensures ref in AddReferences(refs, requirements) <==>
            ref in refs || exists i :: 0 <= i < |requirements| && ReferenceOf(requirements[i]) == ref
  {
    hide InsertUnique;
    if requirements != [] {
      var front, last := requirements[..|requirements| - 1], requirements[|requirements| - 1];
      AddReferencesMeaning(refs, front, ref);
      ReferenceOrder();
      var before := AddReferences(refs, front);
      InsertUniqueSorted(ReferenceOf(last), before, ReferenceLess);
      assert ref in AddReferences(refs, requirements) <==> ref == ReferenceOf(last) || ref in before;
      if exists i :: 0 <= i < |front| && ReferenceOf(front[i]) == ref {
        var i :| 0 <= i < |front| && ReferenceOf(front[i]) == ref;
        assert ReferenceOf(requirements[i]) == ref;
      }
      assert ReferenceOf(requirements[|requirements| - 1]) == ReferenceOf(last);
    }
  }

  lemma {:induction false} ReferencesMeaning(rules: seq<Rule>, ref: Reference)
    ensures StrictlySorted(References(rules), ReferenceLess)
    ensures ref in References(rules) <==> exists r :: r in rules && Mentions(r, ref)
  {
    hide AddReferences, Mentions;
    if rules != [] {
      var front, last := rules[..|rules| - 1], rules[|rules| - 1];
      ReferencesMeaning(front, ref);
      AddReferencesMeaning(References(front), last.requirements, ref);
      MentionsIs(last, ref);
      assert rules == front + [last];
      assert forall r :: r in rules <==> r in front || r == last;
    }
  }

  lemma MentionsIs(rule: Rule, ref: Reference)
    ensures Mentions(rule, ref) <==>
            exists i :: 0 <= i < |rule.requirements| && ReferenceOf(rule.requirements[i]) == ref
  {
  }

  lemma ReferencesOrderFree(a: seq<Rule>, b: seq<Rule>)
    requires multiset(a) == multiset(b)
    ensures References(a) == References(b)
  {
    hide References, Mentions;
    forall ref ensures ref in References(a) <==> ref in References(b) {
      ReferencesMeaning(a, ref);
      ReferencesMeaning(b, ref);
      assert forall r :: r in multiset(a) <==> r in a;
      assert forall r :: r in multiset(b) <==> r in b;
    }
    ReferencesMeaning(a, Reference(ModuleSubject, 0, []));
    ReferencesMeaning(b, Reference(ModuleSubject, 0, []));
    ReferenceOrder();
    StrictSetUnique(References(a), References(b), ReferenceLess);
  }

  /** With unique ids any permutation of the rules gives the identical decision, both digests included. */
  lemma DecisionOrderFree(query: Query, a: seq<Rule>, b: seq<Rule>, resolver: Resolver, generation: nat, now: int,
                          hash: Digest)
    requires multiset(a) == multiset(b) && UniqueIds(a)
    ensures Decide(query, a, resolver, generation, now, hash) == Decide(query, b, resolver, generation, now, hash)
  {
    hide Considered, References, UniqueIds, TallyRules, DecisionTokens;
    ConsideredOrderFree(a, b, query.maxRules);
    ReferencesOrderFree(a, b);
  }

  // ----- More knowledge -----

  /** The second resolver agrees with the first on every attribute the first has established. */
  ghost predicate KnowsMore(less: Resolver, more: Resolver) {
    forall s, k, sub :: less(s, k, sub).Some? && Established(less(s, k, sub).value) ==>
      && more(s, k, sub).Some? && Established(more(s, k, sub).value)
      && more(s, k, sub).value.value == less(s, k, sub).value.value
  }

  lemma DecidedStays(requirement: Requirement, less: Resolver, more: Resolver)
    requires KnowsMore(less, more)
    requires !IsIndeterminate(Evaluate(requirement, less))
    ensures Evaluate(requirement, more).state == Evaluate(requirement, less).state
  {
    hide ApplyOperator;
    assert less(requirement.subject, requirement.key, requirement.subkey).Some?;
  }

  lemma SatisfiedStays(rule: Rule, less: Resolver, more: Resolver)
    requires KnowsMore(less, more)
    requires AllSatisfied(rule, less)
    ensures AllSatisfied(rule, more)
  {
    hide KnowsMore, Evaluate;
    forall i | 0 <= i < |rule.requirements| ensures IsSatisfied(Evaluate(rule.requirements[i], more)) {
      assert IsSatisfied(Evaluate(rule.requirements[i], less));
      DecidedStays(rule.requirements[i], less, more);
    }
  }

  lemma DecidedRuleStays(rule: Rule, less: Resolver, more: Resolver)
    requires KnowsMore(less, more)
    requires !Undecided(rule, less)
    ensures !Undecided(rule, more)
    ensures AllSatisfied(rule, more) <==> AllSatisfied(rule, less)
  {
    hide KnowsMore, Evaluate;
    forall i | 0 <= i < |rule.requirements|
      ensures Evaluate(rule.requirements[i], more).state == Evaluate(rule.requirements[i], less).state
      ensures !IsIndeterminate(Evaluate(rule.requirements[i], less))
    {
      assert !IsIndeterminate(Evaluate(rule.requirements[i], less));
      DecidedStays(rule.requirements[i], less, more);
    }
  }

  /** A Compatible or Incompatible answer survives any amount of further knowledge. */
  lemma AnswersAreStable(query: Query, rules: seq<Rule>, less: Resolver, more: Resolver, generation: nat, now: int,
                         hash: Digest)
    requires KnowsMore(less, more)
    ensures var before := Decide(query, rules, less, generation, now, hash).outcome;
      var after := Decide(query, rules, more, generation, now, hash).outcome;
      (before == Compatible ==> after == Compatible) && (before == Incompatible ==> after == Incompatible)
  {
    hide Decide, Considered, KnowsMore, AllSatisfied, Undecided;
    OutcomeExact(query, rules, less, generation, now, hash);
    OutcomeExact(query, rules, more, generation, now, hash);
    var considered := Considered(rules, query.maxRules);
    forall r | r in considered && AllSatisfied(r, less) ensures AllSatisfied(r, more) {
      SatisfiedStays(r, less, more);
    }
    forall r | r in considered && !Undecided(r, less)
      ensures !Undecided(r, more) && (AllSatisfied(r, more) <==> AllSatisfied(r, less))
    {
      DecidedRuleStays(r, less, more);
    }
  }

  /**
   * Unsupported is not stable: it stays exactly while no considered deny rule becomes satisfied, and
   * turns into Incompatible otherwise. It never becomes Compatible or Unknown.
   */
  lemma UnsupportedStaysExactly(query: Query, rules: seq<Rule>, less: Resolver, more: Resolver, generation: nat,
                                now: int, hash: Digest)
    requires KnowsMore(less, more)
    requires Decide(query, rules, less, generation, now, hash).outcome == CompatOutcome.Unsupported
    ensures var after := Decide(query, rules, more, generation, now, hash).outcome;
      && (after == CompatOutcome.Unsupported <==>
          forall r :: r in Considered(rules, query.maxRules) ==> !Hits(r, DenyVerdict, more))
      && (after != CompatOutcome.Unsupported ==> after == Incompatible)
  {
    hide Decide, Considered, KnowsMore, AllSatisfied, Undecided;
    OutcomeExact(query, rules, less, generation, now, hash);
    OutcomeExact(query, rules, more, generation, now, hash);
    forall r | r in Considered(rules, query.maxRules) && AllSatisfied(r, less) ensures AllSatisfied(r, more) {
      SatisfiedStays(r, less, more);
    }
  }

  /**
   * What can be said beforehand: with a violated requirement in every considered deny rule, Unsupported stays under
   * whatever is learned later.
   */
  lemma UnsupportedStaysForGood(query: Query, rules: seq<Rule>, less: Resolver, more: Resolver, generation: nat,
                                now: int, hash: Digest)
    requires KnowsMore(less, more)
    requires Decide(query, rules, less, generation, now, hash).outcome == CompatOutcome.Unsupported
    requires forall r :: r in Considered(rules, query.maxRules) && r.verdict == DenyVerdict ==> Refuted(r, less)
    ensures Decide(query, rules, more, generation, now, hash).outcome == CompatOutcome.Unsupported
  {
    hide Decide, Considered, KnowsMore, Refuted, AllSatisfied;
    UnsupportedStaysExactly(query, rules, less, more, generation, now, hash);
    forall r | r in Considered(rules, query.maxRules) ensures !Hits(r, DenyVerdict, more) {
      if r.verdict == DenyVerdict {
        RefutedStays(r, less, more);
      }
    }
  }

  /** Some requirement of the rule is known to fail. */
  ghost predicate Refuted(rule: Rule, resolver: Resolver) {
    exists i :: 0 <= i < |rule.requirements| && IsViolated(Evaluate(rule.requirements[i], resolver))
  }

  lemma RefutedStays(rule: Rule, less: Resolver, more: Resolver)
    requires KnowsMore(less, more) && Refuted(rule, less)
    ensures Refuted(rule, more) && !AllSatisfied(rule, more)
  {
    hide KnowsMore, Evaluate;
    var i :| 0 <= i < |rule.requirements| && IsViolated(Evaluate(rule.requirements[i], less));
    DecidedStays(rule.requirements[i], less, more);
    assert IsViolated(Evaluate(rule.requirements[i], more));
  }

  /**
   * A refuted rule can never hit, and still blocks approval while another of its requirements is undetermined. When an
   * allow rule hits, no other verdict does, and every undecided rule is refuted, Compatible is the one answer further
   * knowledge can give, and it is given exactly once every considered rule is decided; until then the answer is
   * Unknown.
   */
  lemma RefutedRulesBlockApproval(query: Query, rules: seq<Rule>, less: Resolver, more: Resolver, generation: nat,
                                  now: int, hash: Digest)
    requires KnowsMore(less, more)
    requires exists r :: r in Considered(rules, query.maxRules) && Hits(r, AllowVerdict, less)
    requires forall r :: r in Considered(rules, query.maxRules) ==>
               !Hits(r, DenyVerdict, less) && !Hits(r, UnsupportedVerdict, less)
    requires forall r :: r in Considered(rules, query.maxRules) && Undecided(r, less) ==> Refuted(r, less)
    ensures var outcome := Decide(query, rules, more, generation, now, hash).outcome;
      && (outcome == Compatible <==> forall r :: r in Considered(rules, query.maxRules) ==> !Undecided(r, more))
      && (outcome == UnknownCompat <==> exists r :: r in Considered(rules, query.maxRules) && Undecided(r, more))
  {
    hide Decide, Considered, KnowsMore, AllSatisfied, Undecided, Refuted;
    OutcomeExact(query, rules, more, generation, now, hash);
    forall r | r in Considered(rules, query.maxRules)
      ensures AllSatisfied(r, more) <==> AllSatisfied(r, less)
    {
      if Undecided(r, less) {
        RefutedStays(r, less, more);
        RefutedStays(r, less, less) by { KnowsItself(less); }
      } else {
        DecidedRuleStays(r, less, more);
      }
    }
  }

  lemma KnowsItself(resolver: Resolver)
    ensures KnowsMore(resolver, resolver)
  {
  }

  /** Temperature telemetry, a boolean capability. */
  const TELEMETRY := 16
  const MODULE_FLAG := Requirement(ModuleSubject, TELEMETRY, [], Equals, BooleanValue(true), [])
  const PORT_FLAG := Requirement(PortSubject, TELEMETRY, [], Equals, BooleanValue(true), [])
  const SEEN := Provenance(RealEvidence, [0x61], [], [])
  const UNSUPPORTED_RULE :=
    Rule(1, [0x75], [MODULE_FLAG], UnsupportedVerdict, 0, [], true, true, 1, 1, 1, 1, SEEN)
  const DENY_RULE :=
    Rule(2, [0x64], [PORT_FLAG], DenyVerdict, 0, [], true, true, 1, 1, 1, 1, SEEN)

  function OnlyModule(s: Subject, k: nat, sub: Text): Option<Attribute> {
    if s == ModuleSubject && k == TELEMETRY && sub == [] then Some(Attribute(SingleSource, Some(BooleanValue(true))))
    else None
  }

  function BothDeclared(s: Subject, k: nat, sub: Text): Option<Attribute> {
    if k == TELEMETRY && sub == [] then Some(Attribute(SingleSource, Some(BooleanValue(true)))) else None
  }

  /** What a rule and a query must have to be accepted, as far as these two rules go. */
  predicate NamedWithRequirements(rule: Rule) {
    && rule.name != [] && |rule.name| <= 128 && rule.requirements != [] && rule.verdict != UnknownVerdict
    && forall i :: 0 <= i < |rule.requirements| ==>
         rule.requirements[i].key == TELEMETRY && rule.requirements[i].op == Equals
         && rule.requirements[i].operand.BooleanValue?
  }

  /**
   * Two acceptable rules and a named port: Unsupported turns into Incompatible once the port declares its telemetry.
   */
  lemma UnsupportedCanFall(hash: Digest)
    ensures KnowsMore(OnlyModule, BothDeclared)
    ensures NamedWithRequirements(UNSUPPORTED_RULE) && NamedWithRequirements(DENY_RULE)
    ensures var query := Query([0x70], 1, 1, 1024);
      var rules := [UNSUPPORTED_RULE, DENY_RULE];
      && Decide(query, rules, OnlyModule, 1, 0, hash).outcome == CompatOutcome.Unsupported
      && Decide(query, rules, BothDeclared, 1, 0, hash).outcome == Incompatible
  {
    hide Decide, Considered, Hits, Undecided;
    var query := Query([0x70], 1, 1, 1024);
    var rules := [UNSUPPORTED_RULE, DENY_RULE];
    ConsideredPair(rules);
    ExampleHits();
    OutcomeExact(query, rules, OnlyModule, 1, 0, hash);
    OutcomeExact(query, rules, BothDeclared, 1, 0, hash);
    assert UNSUPPORTED_RULE in rules && DENY_RULE in rules;
  }

  const NO_MODULE_FLAG := Requirement(ModuleSubject, TELEMETRY, [], Equals, BooleanValue(false), [])
  const ALLOW_RULE :=
    Rule(1, [0x61], [MODULE_FLAG], AllowVerdict, 0, [], true, true, 1, 1, 1, 1, SEEN)
  const REFUTED_RULE :=
    Rule(2, [0x72], [NO_MODULE_FLAG, PORT_FLAG], DenyVerdict, 0, [], true, true, 1, 1, 1, 1, SEEN)

  /** Two acceptable rules: the deny rule cannot hit any more, and the answer is Unknown until the port is declared. */
  lemma RefutedRuleBlocks(hash: Digest)
    ensures KnowsMore(OnlyModule, BothDeclared)
    ensures NamedWithRequirements(ALLOW_RULE) && NamedWithRequirements(REFUTED_RULE)
    ensures var query := Query([0x70], 1, 1, 1024);
      var rules := [ALLOW_RULE, REFUTED_RULE];
      && Refuted(REFUTED_RULE, OnlyModule)
      && Decide(query, rules, OnlyModule, 1, 0, hash).outcome == UnknownCompat
      && Decide(query, rules, BothDeclared, 1, 0, hash).outcome == Compatible
  {
    hide Decide, Considered, Hits, Undecided, Refuted, KnowsMore;
    var query := Query([0x70], 1, 1, 1024);
    var rules := [ALLOW_RULE, REFUTED_RULE];
    TwoConsidered(ALLOW_RULE, REFUTED_RULE, 1024);
    BlockingStates();
    KnowsItself(OnlyModule);
    assert KnowsMore(OnlyModule, BothDeclared) by { UnsupportedCanFall(hash); }
    assert ALLOW_RULE in rules && REFUTED_RULE in rules;
    RefutedRulesBlockApproval(query, rules, OnlyModule, OnlyModule, 1, 0, hash);
    RefutedRulesBlockApproval(query, rules, OnlyModule, BothDeclared, 1, 0, hash);
  }

  lemma BlockingStates()
    ensures Hits(ALLOW_RULE, AllowVerdict, OnlyModule) && Refuted(REFUTED_RULE, OnlyModule)
    ensures !Undecided(ALLOW_RULE, OnlyModule) && !Undecided(ALLOW_RULE, BothDeclared)
    ensures Undecided(REFUTED_RULE, OnlyModule) && !Undecided(REFUTED_RULE, BothDeclared)
    ensures forall verdict :: !Hits(REFUTED_RULE, verdict, OnlyModule)
    ensures !Hits(ALLOW_RULE, DenyVerdict, OnlyModule) && !Hits(ALLOW_RULE, UnsupportedVerdict, OnlyModule)
  {
    assert IsViolated(Evaluate(REFUTED_RULE.requirements[0], OnlyModule));
    assert IsIndeterminate(Evaluate(REFUTED_RULE.requirements[1], OnlyModule));
    assert !IsSatisfied(Evaluate(REFUTED_RULE.requirements[0], OnlyModule));
  }

  lemma ExampleHits()
    ensures Hits(UNSUPPORTED_RULE, UnsupportedVerdict, OnlyModule)
    ensures !Hits(UNSUPPORTED_RULE, DenyVerdict, OnlyModule)
    ensures !Hits(DENY_RULE, DenyVerdict, OnlyModule)
    ensures Hits(DENY_RULE, DenyVerdict, BothDeclared)
  {
    assert !IsSatisfied(Evaluate(DENY_RULE.requirements[0], OnlyModule));
  }

  lemma ConsideredPair(rules: seq<Rule>)
    requires rules == [UNSUPPORTED_RULE, DENY_RULE]
    ensures forall r :: r in Considered(rules, 1024) <==> r in rules
  {
    hide Considered;
    TwoConsidered(UNSUPPORTED_RULE, DENY_RULE, 1024);
  }

  lemma TwoConsidered(a: Rule, b: Rule, maxRules: nat)
    requires InForce(a) && InForce(b) && maxRules >= 2
    ensures forall r :: r in Considered([a, b], maxRules) <==> r in [a, b]
  {
    hide Sort, Filter, ByPriority;
    FilterLast([a], b, InForce);
    FilterLast([], a, InForce);
    assert [a] + [b] == [a, b] && [] + [a] == [a];
    var sorted := Sort([a, b], ByPriority);
    assert Considered([a, b], maxRules) == sorted;
    SameElements(sorted, [a, b]);
  }

  lemma SameElements<T>(s: seq<T>, t: seq<T>)
    requires multiset(s) == multiset(t)
    ensures forall x :: x in s <==> x in t
  {
    assert forall x :: x in s <==> x in multiset(s);
    assert forall x :: x in t <==> x in multiset(t);
  }

  // ----- The inputs digest covers everything the decision rests on -----

  lemma ReferenceTokensDecide(ref: Reference, a: Resolver, b: Resolver, requirement: Requirement)
    requires ReferenceTokens(ref, a) == ReferenceTokens(ref, b)
    requires ReferenceOf(requirement) == ref
    ensures Evaluate(requirement, a) == Evaluate(requirement, b)
  {
    hide ApplyOperator;
    var x, y := a(ref.subject, ref.key, ref.subkey), b(ref.subject, ref.key, ref.subkey);
    var s, t := ReferenceTokens(ref, a), ReferenceTokens(ref, b);
    assert s[4] == t[4] && s[10] == t[10] && s[12] == t[12];
  }

  lemma ReferenceTokensLength(ref: Reference, resolver: Resolver)
    ensures |ReferenceTokens(ref, resolver)| == 14
  {
  }

  lemma {:induction false} TokensDecideEach(refs: seq<Reference>, a: Resolver, b: Resolver, i: nat)
    requires AllReferenceTokens(refs, a) == AllReferenceTokens(refs, b) && i < |refs|
    ensures ReferenceTokens(refs[i], a) == ReferenceTokens(refs[i], b)
  {
    hide ReferenceTokens;
    var front, last := refs[..|refs| - 1], refs[|refs| - 1];
    var u, v := AllReferenceTokens(front, a), AllReferenceTokens(front, b);
    ReferenceTokensLength(last, a);
    ReferenceTokensLength(last, b);
    var whole := AllReferenceTokens(refs, a);
    assert |u| == |whole| - 14 == |v|;
    assert u == whole[..|u|] == v;
    assert ReferenceTokens(last, a) == whole[|u|..] == ReferenceTokens(last, b);
    if i < |front| {
      TokensDecideEach(front, a, b, i);
    }
  }

  lemma RuleFollowsReferences(rule: Rule, a: Resolver, b: Resolver)
    requires forall i :: 0 <= i < |rule.requirements| ==>
               Evaluate(rule.requirements[i], a) == Evaluate(rule.requirements[i], b)
    ensures AllSatisfied(rule, a) == AllSatisfied(rule, b)
    ensures Undecided(rule, a) == Undecided(rule, b)
    ensures Matched(rule, a) == Matched(rule, b)
  {
    hide Evaluate;
    assert EvaluateAll(rule.requirements, a) == EvaluateAll(rule.requirements, b);
  }

  ghost predicate SameReading(rule: Rule, a: Resolver, b: Resolver) {
    forall i :: 0 <= i < |rule.requirements| ==>
      Evaluate(rule.requirements[i], a) == Evaluate(rule.requirements[i], b)
  }

  lemma {:induction false} TallyFollowsReferences(rules: seq<Rule>, a: Resolver, b: Resolver)
    requires forall r :: r in rules ==> SameReading(r, a, b)
    ensures TallyRules(rules, a) == TallyRules(rules, b)
  {
    hide AllSatisfied, Undecided, Matched, Filter;
    if rules != [] {
      TallyFollowsReferences(rules[..|rules| - 1], a, b);
      assert rules[|rules| - 1] in rules;
      RuleFollowsReferences(rules[|rules| - 1], a, b);
    }
  }

  lemma ConsideredIsGiven(rules: seq<Rule>, maxRules: nat, r: Rule)
    requires r in Considered(rules, maxRules)
    ensures r in rules && InForce(r)
  {
    var s := Sort(Filter(rules, InForce), ByPriority);
    assert r in s;
    assert r in multiset(s);
    assert r in Filter(rules, InForce);
  }

  lemma InputsGiveReferences(query: Query, rules: seq<Rule>, a: Resolver, b: Resolver)
    requires InputTokens(query, rules, a) == InputTokens(query, rules, b)
    ensures AllReferenceTokens(References(rules), a) == AllReferenceTokens(References(rules), b)
  {
    hide References, AllReferenceTokens;
    var x, y := InputTokens(query, rules, a), InputTokens(query, rules, b);
    var u, v := AllReferenceTokens(References(rules), a), AllReferenceTokens(References(rules), b);
    assert |x| == |u| + 11 && |y| == |v| + 11;
    assert u == x[7..7 + |u|] && v == y[7..7 + |v|];
  }

  /** Resolvers that feed the inputs digest the same document cannot lead to different decisions. */
  lemma DecisionFollowsInputs(query: Query, rules: seq<Rule>, a: Resolver, b: Resolver, generation: nat, now: int,
                              hash: Digest)
    requires InputTokens(query, rules, a) == InputTokens(query, rules, b)
    ensures Decide(query, rules, a, generation, now, hash) == Decide(query, rules, b, generation, now, hash)
  {
    hide InputTokens, References, AllReferenceTokens, ReferenceTokens, Considered, Evaluate, Mentions, TallyRules,
         DecisionTokens;
    InputsGiveReferences(query, rules, a, b);
    var refs := References(rules);
    forall r | r in Considered(rules, query.maxRules) ensures SameReading(r, a, b) {
      ConsideredIsGiven(rules, query.maxRules, r);
      forall i | 0 <= i < |r.requirements|
        ensures Evaluate(r.requirements[i], a) == Evaluate(r.requirements[i], b)
      {
        var ref := ReferenceOf(r.requirements[i]);
        MentionsIs(r, ref);
        ReferencesMeaning(rules, ref);
        var k :| 0 <= k < |refs| && refs[k] == ref;
        TokensDecideEach(refs, a, b, k);
        ReferenceTokensDecide(ref, a, b, r.requirements[i]);
      }
    }
    TallyFollowsReferences(Considered(rules, query.maxRules), a, b);
  }
}
