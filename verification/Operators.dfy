/** What each requirement operator means for a decision, src/compatibility.cpp:45-180: stated on the decision alone. */
module Operators {
  import opened Bytes
  import opened Ordering
  import opened Capability
  import opened Consensus
  import opened Compatibility
  import opened CompatibilityTheorems

  // ----- What a decision says about its one requirement -----

  datatype Reply = Holds | Fails | CannotTell

  /** The outcome a satisfied rule brings about. */
  function Asserted(verdict: Verdict): CompatOutcome {
    match verdict
    case UnknownVerdict => UnknownCompat
    case AllowVerdict => Compatible
    case DenyVerdict => Incompatible
    case UnsupportedVerdict => CompatOutcome.Unsupported
  }

  /** Satisfied: the verdict. Violated: nothing applies, nothing is open. Undetermined: one rule is. */
  ghost predicate Replies(d: Decision, verdict: Verdict, reply: Reply) {
    match reply
    case Holds => d.outcome == Asserted(verdict) && d.closure == Closed && d.indeterminateRules == 0 && d.violated == []
    case Fails => d.outcome == UnknownCompat && d.closure == Open && d.indeterminateRules == 0 && |d.violated| == 1
    case CannotTell =>
      d.outcome == UnknownCompat && d.closure == Partial && d.indeterminateRules == 1 && d.violated == []
  }

  /** A decision over one rule in force, with one requirement and a verdict. */
  ghost predicate OneQuestion(query: Query, rule: Rule, q: Requirement) {
    query.maxRules >= 1 && InForce(rule) && rule.verdict != UnknownVerdict && rule.requirements == [q]
  }

  /** Live sources have settled the attribute on this value. */
  predicate Settled(resolver: Resolver, q: Requirement, v: CapabilityValue) {
    var a := resolver(q.subject, q.key, q.subkey);
    a == Some(Attribute(Agreed, Some(v))) || a == Some(Attribute(SingleSource, Some(v)))
  }

  lemma OneConsidered(rule: Rule, maxRules: nat)
    requires InForce(rule) && maxRules >= 1
    ensures Considered([rule], maxRules) == [rule]
  {
    hide Sort, Filter, ByPriority;
    FilterLast([], rule, InForce);
    assert [] + [rule] == [rule];
    FilterNone(InForce);
    SingletonSort(rule);
  }

  lemma SingletonSort(rule: Rule)
    ensures Sort([rule], ByPriority) == [rule]
  {
  }

  function ReplyOf(state: RequirementState): Reply {
    match state
    case Satisfied => Holds
    case Violated => Fails
    case Indeterminate => CannotTell
  }

  lemma OneEvaluation(q: Requirement, resolver: Resolver)
    ensures EvaluateAll([q], resolver) == [Evaluate(q, resolver)]
  {
  }

  lemma OneTally(rule: Rule, q: Requirement, resolver: Resolver)
    requires rule.requirements == [q]
    ensures var t := TallyRules([rule], resolver);
      var e := Evaluate(q, resolver);
      && t == TallyRule(EMPTY_TALLY, rule, resolver)
      && (AllSatisfied(rule, resolver) <==> e.state == Satisfied)
      && (Undecided(rule, resolver) <==> e.state == Indeterminate)
      && |t.violated| == (if e.state == Violated then 1 else 0)
      && t.undecided == (if e.state == Indeterminate then [Matched(rule, resolver)] else [])
  {
    hide Evaluate;
    assert [rule][..0] == [] && TallyRules([], resolver) == EMPTY_TALLY;
    OneEvaluation(q, resolver);
    var e := Evaluate(q, resolver);
    FilterLast([], e, IsViolated);
    FilterNone(IsViolated);
    assert [] + [e] == [e];
    assert Matched(rule, resolver).requirements == [e];
    assert EMPTY_TALLY.violated + Filter([e], IsViolated) == Filter([e], IsViolated);
    assert EMPTY_TALLY.undecided + [Matched(rule, resolver)] == [Matched(rule, resolver)];
    assert rule.requirements[0] == q;
  }

  lemma OneAnswer(query: Query, rule: Rule, q: Requirement, resolver: Resolver, generation: nat, now: int, hash: Digest)
    requires OneQuestion(query, rule, q)
    ensures Replies(Decide(query, [rule], resolver, generation, now, hash), rule.verdict,
                    ReplyOf(Evaluate(q, resolver).state))
  {
    hide Evaluate, Considered, InputTokens, DecisionTokens, TallyRules, AllSatisfied, Undecided, Matched;
    OneConsidered(rule, query.maxRules);
    OneTally(rule, q, resolver);
  }

  lemma SettledState(q: Requirement, resolver: Resolver, v: CapabilityValue)
    requires Settled(resolver, q, v)
    ensures Evaluate(q, resolver).state ==
            match ApplyOperator(q.op, v, q.operand)
            case None => Indeterminate
            case Some(holds) => if holds then Satisfied else Violated
  {
    hide ApplyOperator;
  }

  /**
   * What the decision shows for its answer: the value seen and how well it is agreed on, or why it could not be told.
   */
  lemma AnswerIsShown(query: Query, rule: Rule, q: Requirement, resolver: Resolver, o: Outcome,
                      seen: Option<CapabilityValue>, generation: nat, now: int, hash: Digest)
    requires OneQuestion(query, rule, q) && resolver(q.subject, q.key, q.subkey) == Some(Attribute(o, seen))
    ensures var d := Decide(query, [rule], resolver, generation, now, hash);
      && (Replies(d, rule.verdict, Holds) ==>
            d.unmet == [] && d.matchedRules ==
            [MatchedRule(rule.id, rule.name, rule.verdict, rule.priority, rule.generation, rule.rationale,
                         [Evaluation(q, Satisfied, o, seen)])])
      && (Replies(d, rule.verdict, Fails) ==>
            d.matchedRules == [] && d.unmet == [] && d.violated == [Evaluation(q, Violated, o, seen)])
      && (Replies(d, rule.verdict, CannotTell) && o != Agreed && o != SingleSource ==>
            d.unmet == [Evaluation(q, Indeterminate, o, None)])
  {
    hide Considered, InputTokens, DecisionTokens, TallyRules, ApplyOperator;
    OneConsidered(rule, query.maxRules);
    OneTally(rule, q, resolver);
    OneEvaluation(q, resolver);
    var e := Evaluate(q, resolver);
    hide Evaluate;
    FilterLast([], e, IsViolated);
    FilterNone(IsViolated);
    FilterLast([], e, IsIndeterminate);
    FilterNone(IsIndeterminate);
    assert [] + [e] == [e];
  }

  // ----- Bounds -----

  /** The number a value stands for: counts and reals compare with each other. */
  predicate IsNumber(v: CapabilityValue, x: real) { v == RealValue(x) || (v.CountValue? && v.count as real == x) }

  /** An observed number against a bound: at most, or at least. */
  lemma BoundsDecide(query: Query, rule: Rule, q: Requirement, resolver: Resolver, v: CapabilityValue, x: real, y: real,
                     generation: nat, now: int, hash: Digest)
    requires OneQuestion(query, rule, q) && Settled(resolver, q, v) && IsNumber(v, x) && IsNumber(q.operand, y)
    ensures var d := Decide(query, [rule], resolver, generation, now, hash);
      && (q.op == AtMost ==> Replies(d, rule.verdict, if x <= y then Holds else Fails))
      && (q.op == AtLeast ==> Replies(d, rule.verdict, if x >= y then Holds else Fails))
  {
    hide Decide, Replies, Evaluate;
    OneAnswer(query, rule, q, resolver, generation, now, hash);
    SettledState(q, resolver, v);
  }

  // ----- Equality -----

  /** Equality of values; of sets it is equality of the members they were built from, in any order, repeats ignored. */
  lemma ValuesDecide(query: Query, rule: Rule, q: Requirement, resolver: Resolver, v: CapabilityValue,
                     generation: nat, now: int, hash: Digest)
    requires OneQuestion(query, rule, q) && Settled(resolver, q, v)
    ensures var d := Decide(query, [rule], resolver, generation, now, hash);
      && (q.op == Equals ==> Replies(d, rule.verdict, if v == q.operand then Holds else Fails))
      && (q.op == NotEquals ==> Replies(d, rule.verdict, if v != q.operand then Holds else Fails))
    ensures forall a: seq<int>, b: seq<int> :: v == MakeEnumSet(a) && q.operand == MakeEnumSet(b) ==>
              (v == q.operand <==> ToSet(a) == ToSet(b))
    ensures forall a: seq<Text>, b: seq<Text> :: v == MakeTextSet(a) && q.operand == MakeTextSet(b) ==>
              (v == q.operand <==> ToSet(a) == ToSet(b))
  {
    hide Decide, Replies, Evaluate, MakeEnumSet, MakeTextSet, ToSet;
    OneAnswer(query, rule, q, resolver, generation, now, hash);
    SettledState(q, resolver, v);
    forall a: seq<int>, b: seq<int> ensures MakeEnumSet(a) == MakeEnumSet(b) <==> ToSet(a) == ToSet(b) {
      SetsCompareByMembers(a, b, [], [], [], []);
    }
    forall a: seq<Text>, b: seq<Text> ensures MakeTextSet(a) == MakeTextSet(b) <==> ToSet(a) == ToSet(b) {
      SetsCompareByMembers([], [], a, b, [], []);
    }
  }

  // ----- Sets -----

  predicate IsSetOp(op: Op) {
    op == In || op == NotIn || op == SupersetOf || op == SubsetOf || op == Overlaps || op == DisjointFrom
  }

  /** Every member of b is one of a. */
  ghost predicate Covers<T(!new)>(a: seq<T>, b: seq<T>) { forall x :: x in b ==> x in a }

  /** Some member of a is one of b. */
  ghost predicate Touches<T(!new)>(a: seq<T>, b: seq<T>) { exists x :: x in a && x in b }

  /** What a set operator asks of the observed members and the operand's. */
  ghost predicate Related<T(!new)>(op: Op, observed: seq<T>, operand: seq<T>)
    requires IsSetOp(op)
  {
    match op
    case In => Covers(operand, observed)
    case NotIn => !Covers(operand, observed)
    case SubsetOf => Covers(operand, observed)
    case SupersetOf => Covers(observed, operand)
    case Overlaps => Touches(observed, operand)
    case DisjointFrom => !Touches(observed, operand)
  }

  lemma EnumMembers(a: seq<int>)
    ensures Covers(MakeEnumSet(a).enumerators, a) && Covers(a, MakeEnumSet(a).enumerators)
  {
    CanonicalSetShape(a, IntLess);
  }

  lemma TextMembers(a: seq<Text>)
    ensures Covers(MakeTextSet(a).texts, a) && Covers(a, MakeTextSet(a).texts)
  {
    TextOrder();
    CanonicalSetShape(a, TextLess);
  }

  lemma MembersRelate<T(!new)>(op: Op, s: seq<T>, t: seq<T>, a: seq<T>, b: seq<T>)
    requires IsSetOp(op) && Covers(s, a) && Covers(a, s) && Covers(t, b) && Covers(b, t)
    ensures Related(op, s, t) <==> Related(op, a, b)
  {
    assert Covers(s, t) <==> Covers(a, b);
    assert Covers(t, s) <==> Covers(b, a);
    assert Touches(s, t) <==> Touches(a, b);
  }

  lemma CoversAt<T(!new)>(s: seq<T>, t: seq<T>)
    ensures Covers(s, t) <==> forall i :: 0 <= i < |t| ==> t[i] in s
    ensures Touches(s, t) <==> exists i :: 0 <= i < |s| && s[i] in t
  {
    if Touches(s, t) {
      var x :| x in s && x in t;
      var i :| 0 <= i < |s| && s[i] == x;
    }
  }

  lemma NumbersCompare(s: seq<int>, t: seq<int>)
    ensures Covers(s, t) <==> forall v :: v in t ==> v in s
    ensures Touches(s, t) <==> exists v :: v in s && v in t
  {
    CoversAt(s, t);
    if forall i :: 0 <= i < |t| ==> t[i] in s {
      forall v | v in t ensures v in s {
        var i :| 0 <= i < |t| && t[i] == v;
      }
    }
    if forall v :: v in t ==> v in s {
      forall i | 0 <= i < |t| ensures t[i] in s {
        assert t[i] in t;
      }
    }
    if exists v :: v in s && v in t {
      var v :| v in s && v in t;
      var i :| 0 <= i < |s| && s[i] == v;
    }
  }

  lemma EnumSetsRelate(op: Op, s: seq<int>, t: seq<int>)
    requires IsSetOp(op)
    ensures ApplyOperator(op, EnumSet(s), EnumSet(t)) == Some(Related(op, s, t))
  {
    NumbersCompare(s, t);
    NumbersCompare(t, s);
    hide Covers, Touches;
  }

  lemma TextSetsRelate(op: Op, s: seq<Text>, t: seq<Text>)
    requires IsSetOp(op)
    ensures ApplyOperator(op, TextSet(s), TextSet(t)) == Some(Related(op, s, t))
  {
  }

  /** Sets of enumerators, over the lists they were built from. */
  lemma EnumSetsDecide(query: Query, rule: Rule, q: Requirement, resolver: Resolver, a: seq<int>, b: seq<int>,
                       generation: nat, now: int, hash: Digest)
    requires OneQuestion(query, rule, q) && Settled(resolver, q, MakeEnumSet(a)) && q.operand == MakeEnumSet(b)
    requires IsSetOp(q.op)
    ensures Replies(Decide(query, [rule], resolver, generation, now, hash), rule.verdict,
                    if Related(q.op, a, b) then Holds else Fails)
  {
    hide Decide, Replies, Evaluate, CanonicalSet, ApplyOperator, Related, Covers;
    OneAnswer(query, rule, q, resolver, generation, now, hash);
    SettledState(q, resolver, MakeEnumSet(a));
    var s, t := MakeEnumSet(a).enumerators, MakeEnumSet(b).enumerators;
    EnumMembers(a);
    EnumMembers(b);
    EnumSetsRelate(q.op, s, t);
    MembersRelate(q.op, s, t, a, b);
  }

  /** Sets of texts likewise. */
  lemma TextSetsDecide(query: Query, rule: Rule, q: Requirement, resolver: Resolver, a: seq<Text>, b: seq<Text>,
                       generation: nat, now: int, hash: Digest)
    requires OneQuestion(query, rule, q) && Settled(resolver, q, MakeTextSet(a)) && q.operand == MakeTextSet(b)
    requires IsSetOp(q.op)
    ensures Replies(Decide(query, [rule], resolver, generation, now, hash), rule.verdict,
                    if Related(q.op, a, b) then Holds else Fails)
  {
    hide Decide, Replies, Evaluate, CanonicalSet, ApplyOperator, Related, Covers;
    OneAnswer(query, rule, q, resolver, generation, now, hash);
    SettledState(q, resolver, MakeTextSet(a));
    var s, t := MakeTextSet(a).texts, MakeTextSet(b).texts;
    TextMembers(a);
    TextMembers(b);
    TextSetsRelate(q.op, s, t);
    MembersRelate(q.op, s, t, a, b);
  }

  // ----- Undetermined -----

  predicate Numeric(v: CapabilityValue) { v.CountValue? || v.RealValue? }

  /** The operator can compare values of these shapes. */
  predicate Comparable(op: Op, v: CapabilityValue, w: CapabilityValue) {
    if op == UnknownOp then false
    else if op == Equals || op == NotEquals then true
    else if IsSetOp(op) then (v.EnumSet? && w.EnumSet?) || (v.TextSet? && w.TextSet?)
    else Numeric(v) && Numeric(w)
  }

  /** A settled attribute leaves the rule undetermined exactly when the operator cannot compare the two shapes. */
  lemma UndeterminedExactly(query: Query, rule: Rule, q: Requirement, resolver: Resolver, v: CapabilityValue,
                            generation: nat, now: int, hash: Digest)
    requires OneQuestion(query, rule, q) && Settled(resolver, q, v)
    ensures var d := Decide(query, [rule], resolver, generation, now, hash);
      && (d.indeterminateRules == 1 <==> !Comparable(q.op, v, q.operand))
      && (!Comparable(q.op, v, q.operand) ==> Replies(d, rule.verdict, CannotTell))
  {
    hide Decide, Evaluate;
    OneAnswer(query, rule, q, resolver, generation, now, hash);
    SettledState(q, resolver, v);
  }

  /** An attribute live sources have not settled leaves it undetermined, whatever the operator. */
  lemma UnsettledIsUndetermined(query: Query, rule: Rule, q: Requirement, resolver: Resolver, generation: nat, now: int,
                                hash: Digest)
    requires OneQuestion(query, rule, q)
    requires forall v :: !Settled(resolver, q, v)
    ensures Replies(Decide(query, [rule], resolver, generation, now, hash), rule.verdict, CannotTell)
  {
    hide Decide, Replies;
    OneAnswer(query, rule, q, resolver, generation, now, hash);
    var a := resolver(q.subject, q.key, q.subkey);
    if a.Some? && a.value.value.Some? {
      assert !Settled(resolver, q, a.value.value.value);
    }
  }

  /** `In` takes two sets: a single enumerator is neither a member nor excluded, though such a rule is accepted. */
  lemma ScalarsAreNeverIn(query: Query, rule: Rule, q: Requirement, resolver: Resolver, n: int, b: seq<int>,
                          generation: nat, now: int, hash: Digest)
    requires OneQuestion(query, rule, q) && Settled(resolver, q, EnumValue(n)) && q.operand == MakeEnumSet(b)
    requires q.op == In || q.op == NotIn
    ensures Replies(Decide(query, [rule], resolver, generation, now, hash), rule.verdict, CannotTell)
  {
    hide Decide, Replies;
    UndeterminedExactly(query, rule, q, resolver, EnumValue(n), generation, now, hash);
  }

  // ----- Monotonicity -----

  /** A ceiling is never lost by observing less, nor a floor by observing more. */
  lemma BoundsAreMonotone(query: Query, rule: Rule, q: Requirement, a: Resolver, b: Resolver, v: CapabilityValue,
                          w: CapabilityValue, x: real, z: real, generation: nat, now: int, hash: Digest)
    requires OneQuestion(query, rule, q) && Settled(a, q, v) && Settled(b, q, w) && IsNumber(v, x) && IsNumber(w, z)
    requires (q.op == AtMost && z <= x) || (q.op == AtLeast && z >= x)
    requires Replies(Decide(query, [rule], a, generation, now, hash), rule.verdict, Holds)
    ensures Replies(Decide(query, [rule], b, generation, now, hash), rule.verdict, Holds)
  {
    hide Decide, Settled;
    var d := Decide(query, [rule], a, generation, now, hash);
    if Numeric(q.operand) {
      var y := if q.operand.CountValue? then q.operand.count as real else q.operand.number;
      BoundsDecide(query, rule, q, a, v, x, y, generation, now, hash);
      BoundsDecide(query, rule, q, b, w, z, y, generation, now, hash);
    } else {
      UndeterminedExactly(query, rule, q, a, v, generation, now, hash);
    }
  }

  /** MaxPowerMilliWatts, a count. */
  const MAX_POWER := 13
  const CEILING := Requirement(ModuleSubject, MAX_POWER, [], AtMost, CountValue(15), [])
  const CEILING_RULE := Rule(1, [0x70], [CEILING], AllowVerdict, 0, [], true, true, 1, 1, 1, 1, SEEN)

  function Draws(n: int): Resolver {
    (s: Subject, k: nat, sub: Text) => if k == MAX_POWER then Some(Attribute(SingleSource,
                                                                             Some(CountValue(n)))) else None
  }

  /** Fifteen is within a ceiling of fifteen, twenty-five is not; and the other way round for a floor. */
  lemma CeilingHolds(hash: Digest)
    ensures var query := Query([0x70], 1, 1, 1024);
      var floor := CEILING_RULE.(requirements := [CEILING.(op := AtLeast)]);
      && Decide(query, [CEILING_RULE], Draws(15), 1, 0, hash).outcome == Compatible
      && Decide(query, [CEILING_RULE], Draws(25), 1, 0, hash).outcome == UnknownCompat
      && Decide(query, [floor], Draws(25), 1, 0, hash).outcome == Compatible
      && Decide(query, [floor], Draws(5), 1, 0, hash).outcome == UnknownCompat
  {
    hide Decide;
    var query := Query([0x70], 1, 1, 1024);
    var floor := CEILING_RULE.(requirements := [CEILING.(op := AtLeast)]);
    BoundsDecide(query, CEILING_RULE, CEILING, Draws(15), CountValue(15), 15.0, 15.0, 1, 0, hash);
    BoundsDecide(query, CEILING_RULE, CEILING, Draws(25), CountValue(25), 25.0, 15.0, 1, 0, hash);
    BoundsDecide(query, floor, CEILING.(op := AtLeast), Draws(25), CountValue(25), 25.0, 15.0, 1, 0, hash);
    BoundsDecide(query, floor, CEILING.(op := AtLeast), Draws(5), CountValue(5), 5.0, 15.0, 1, 0, hash);
  }

  // ----- Several requirements, several rules -----

  /** The rule cut down to one of its requirements. */
  function Alone(rule: Rule, i: nat): Rule
    requires i < |rule.requirements|
  {
    rule.(requirements := [rule.requirements[i]])
  }

  /** The decision on that one requirement. */
  function AskAlone(query: Query, rule: Rule, i: nat, resolver: Resolver, generation: nat, now: int,
                    hash: Digest): Decision
    requires i < |rule.requirements|
  {
    Decide(query, [Alone(rule, i)], resolver, generation, now, hash)
  }

  lemma AloneMeans(query: Query, rule: Rule, i: nat, resolver: Resolver, generation: nat, now: int, hash: Digest)
    requires query.maxRules >= 1 && InForce(rule) && rule.verdict != UnknownVerdict && i < |rule.requirements|
    ensures var d := AskAlone(query, rule, i, resolver, generation, now, hash);
      && (Replies(d, rule.verdict, Holds) <==> IsSatisfied(Evaluate(rule.requirements[i], resolver)))
      && (Replies(d, rule.verdict, CannotTell) <==> IsIndeterminate(Evaluate(rule.requirements[i], resolver)))
  {
    hide Decide, Evaluate;
    OneAnswer(query, Alone(rule, i), rule.requirements[i], resolver, generation, now, hash);
  }

  /** A considered rule with this verdict each of whose requirements would hold alone. */
  ghost predicate HitAlone(query: Query, rules: seq<Rule>, verdict: Verdict, resolver: Resolver, generation: nat,
                           now: int, hash: Digest)
  {
    exists r :: r in Considered(rules, query.maxRules) && r.verdict == verdict
                && forall i :: 0 <= i < |r.requirements| ==>
                     Replies(AskAlone(query, r, i, resolver, generation, now, hash), r.verdict, Holds)
  }

  /** A considered rule with a requirement that alone could not be told. */
  ghost predicate OpenAlone(query: Query, rules: seq<Rule>, resolver: Resolver, generation: nat, now: int, hash: Digest)
  {
    exists r :: r in Considered(rules, query.maxRules)
                && exists i :: 0 <= i < |r.requirements|
                     && Replies(AskAlone(query, r, i, resolver, generation, now, hash), r.verdict, CannotTell)
  }

  /**
   * Any rules at all, in terms of single requirements: a rule hits when each of its requirements would hold alone, is
   * undecided when one alone could not be told, and the outcome is deny over unsupported over allow with nothing
   * undecided.
   */
  lemma DecisionFromRequirements(query: Query, rules: seq<Rule>, resolver: Resolver, generation: nat, now: int,
                                 hash: Digest)
    requires query.maxRules >= 1
    requires forall r :: r in rules ==> r.verdict != UnknownVerdict
    ensures var outcome := Decide(query, rules, resolver, generation, now, hash).outcome;
      var deny := HitAlone(query, rules, DenyVerdict, resolver, generation, now, hash);
      var unsupported := HitAlone(query, rules, UnsupportedVerdict, resolver, generation, now, hash);
      var allow := HitAlone(query, rules, AllowVerdict, resolver, generation, now, hash);
      var open := OpenAlone(query, rules, resolver, generation, now, hash);
      && (outcome == Incompatible <==> deny)
      && (outcome == CompatOutcome.Unsupported <==> !deny && unsupported)
      && (outcome == Compatible <==> !deny && !unsupported && allow && !open)
  {
    hide Decide, Considered, Evaluate, Replies, AskAlone, InForce;
    var considered := Considered(rules, query.maxRules);
    OutcomeExact(query, rules, resolver, generation, now, hash);
    forall r | r in considered
      ensures AllSatisfied(r, resolver) <==>
              forall i :: 0 <= i < |r.requirements| ==>
                Replies(AskAlone(query, r, i, resolver, generation, now, hash), r.verdict, Holds)
      ensures Undecided(r, resolver) <==>
              exists i :: 0 <= i < |r.requirements|
                && Replies(AskAlone(query, r, i, resolver, generation, now, hash), r.verdict, CannotTell)
    {
      ConsideredIsInForce(rules, query.maxRules, r);
      forall i | 0 <= i < |r.requirements|
        ensures Replies(AskAlone(query, r, i, resolver, generation, now, hash), r.verdict, Holds)
           <==> IsSatisfied(Evaluate(r.requirements[i], resolver))
        ensures Replies(AskAlone(query, r, i, resolver, generation, now, hash), r.verdict, CannotTell)
           <==> IsIndeterminate(Evaluate(r.requirements[i], resolver))
      {
        AloneMeans(query, r, i, resolver, generation, now, hash);
      }
    }
    hide AllSatisfied, Undecided;
  }

  lemma ConsideredIsInForce(rules: seq<Rule>, maxRules: nat, r: Rule)
    requires r in Considered(rules, maxRules)
    ensures r in rules && InForce(r)
  {
    hide Sort, Filter;
    var kept := Filter(rules, InForce);
    SortedMembers(kept, r);
    FilteredMembers(rules, InForce, r);
  }

  lemma SortedMembers(s: seq<Rule>, r: Rule)
    requires r in Sort(s, ByPriority)
    ensures r in s
  {
    assert r in multiset(Sort(s, ByPriority));
    assert multiset(Sort(s, ByPriority)) == multiset(s);
  }

  lemma FilteredMembers<T>(s: seq<T>, p: T -> bool, x: T)
    requires x in Filter(s, p)
    ensures x in s && p(x)
  {
  }
}
