/** Three-valued compatibility rules, src/compatibility.cpp:45-180, 244-487. */
module Compatibility {
  import opened Bytes
  import opened Provenances
  import opened Ordering
  import opened Capability
  import opened Consensus

  datatype Subject = ModuleSubject | PortSubject

  datatype Op =
    | UnknownOp | Equals | NotEquals | In | NotIn | SupersetOf | SubsetOf | Overlaps | DisjointFrom
    | AtMost | AtLeast

  datatype Verdict = UnknownVerdict | AllowVerdict | DenyVerdict | UnsupportedVerdict

  datatype Requirement = Requirement(subject: Subject, key: nat, subkey: Text, op: Op, operand: CapabilityValue,
                                     note: Text)

  datatype Attribute = Attribute(outcome: Outcome, value: Option<CapabilityValue>)

  /** AttributeResolver; None is the null pointer. */
  type Resolver = (Subject, nat, Text) -> Option<Attribute>

  datatype RequirementState = Satisfied | Violated | Indeterminate

  datatype Evaluation = Evaluation(requirement: Requirement, state: RequirementState, consensus: Outcome,
                                   observed: Option<CapabilityValue>)

  datatype Rule = Rule(id: nat, name: Text, requirements: seq<Requirement>, verdict: Verdict, priority: int,
                       rationale: Text, enabled: bool, live: bool, generation: nat, source: nat, epoch: nat,
                       sequence: nat, provenance: Provenance)

  datatype MatchedRule = MatchedRule(id: nat, name: Text, verdict: Verdict, priority: int, generation: nat,
                                     rationale: Text, requirements: seq<Evaluation>)

  datatype CompatOutcome = UnknownCompat | Compatible | Incompatible | Unsupported

  datatype Closure = Open | Partial | Closed

  datatype Query = Query(port: Text, uid: nat, incarnation: nat, maxRules: nat)

  datatype Reference = Reference(subject: Subject, key: nat, subkey: Text)

  /** What the canonical writer is fed for the two digests. */
  datatype Token =
    | BeginObject(fields: nat) | EndObject | BeginArray(items: nat) | EndArray | Field(name: string)
    | Integer(number: int) | TextToken(text: Text) | BooleanToken(flag: bool) | NullToken
    | Binary(bytes: Text) | ValueToken(value: CapabilityValue)

  type Digest = seq<Token> -> Text

  datatype Decision = Decision(
    outcome: CompatOutcome, closure: Closure, port: Text, uid: nat, incarnation: nat, generation: nat,
    consideredRules: nat, indeterminateRules: nat, matchedRules: seq<MatchedRule>,
    unmet: seq<Evaluation>, violated: seq<Evaluation>, inputsDigest: Text, decisionDigest: Text, evaluatedAt: int)

  // ----- One requirement -----

  predicate Established(a: Attribute) { a.value.Some? && (a.outcome == Agreed || a.outcome == SingleSource) }

  /** set_contains; None is the cleared `comparable` flag. */
  function SetContains(superset: CapabilityValue, subset: CapabilityValue): Option<bool> {
    match (superset, subset)
    case (EnumSet(left), EnumSet(right)) => Some(forall v :: v in right ==> v in left)
    case (TextSet(left), TextSet(right)) => Some(forall v :: v in right ==> v in left)
    case _ => None
  }

  function SetsIntersect(lhs: CapabilityValue, rhs: CapabilityValue): Option<bool> {
    match (lhs, rhs)
    case (EnumSet(left), EnumSet(right)) => Some(exists v :: v in left && v in right)
    case (TextSet(left), TextSet(right)) => Some(exists v :: v in left && v in right)
    case _ => None
  }

  function NumberOf(v: CapabilityValue): Option<real> {
    match v
    case CountValue(n) => Some(n as real)
    case RealValue(x) => Some(x)
    case _ => None
  }

  /** None: the operator cannot compare these shapes. */
  function ApplyOperator(op: Op, observed: CapabilityValue, operand: CapabilityValue): Option<bool> {
    match op
    case Equals => Some(observed == operand)
    case NotEquals => Some(observed != operand)
    case In => SetContains(operand, observed)
    case NotIn => Negate(SetContains(operand, observed))
    case SupersetOf => SetContains(observed, operand)
    case SubsetOf => SetContains(operand, observed)
    case Overlaps => SetsIntersect(observed, operand)
    case DisjointFrom => Negate(SetsIntersect(observed, operand))
    case AtMost =>
      (match (NumberOf(observed), NumberOf(operand))
       case (Some(l), Some(r)) => Some(l <= r)
       case _ => None)
    case AtLeast =>
      (match (NumberOf(observed), NumberOf(operand))
       case (Some(l), Some(r)) => Some(l >= r)
       case _ => None)
    case UnknownOp => None
  }

  function Negate(o: Option<bool>): Option<bool> {
    match o
    case Some(b) => Some(!b)
    case None => None
  }

  function Evaluate(requirement: Requirement, resolver: Resolver): (e: Evaluation)
    ensures e.requirement == requirement
  {
    match resolver(requirement.subject, requirement.key, requirement.subkey)
    case None => Evaluation(requirement, Indeterminate, Outcome.Unknown, None)
    case Some(a) =>
      if !Established(a) then Evaluation(requirement, Indeterminate, a.outcome, None)
      else
        match ApplyOperator(requirement.op, a.value.value, requirement.operand)
        case None => Evaluation(requirement, Indeterminate, Outcome.Unknown, None)
        case Some(holds) => Evaluation(requirement, if holds then Satisfied else Violated, a.outcome, a.value)
  }

  // ----- One rule -----

  function EvaluateAll(requirements: seq<Requirement>, resolver: Resolver): seq<Evaluation> {
    seq(|requirements|, i requires 0 <= i < |requirements| => Evaluate(requirements[i], resolver))
  }

  predicate IsSatisfied(e: Evaluation) { e.state == Satisfied }

  predicate IsViolated(e: Evaluation) { e.state == Violated }

  predicate IsIndeterminate(e: Evaluation) { e.state == Indeterminate }

  predicate AllSatisfied(rule: Rule, resolver: Resolver) {
    forall i :: 0 <= i < |rule.requirements| ==> IsSatisfied(Evaluate(rule.requirements[i], resolver))
  }

  /** Some requirement of the rule cannot be decided; this wins over a violated one. */
  predicate Undecided(rule: Rule, resolver: Resolver) {
    exists i :: 0 <= i < |rule.requirements| && IsIndeterminate(Evaluate(rule.requirements[i], resolver))
  }

  function Matched(rule: Rule, resolver: Resolver): MatchedRule {
    MatchedRule(rule.id, rule.name, rule.verdict, rule.priority, rule.generation, rule.rationale,
                EvaluateAll(rule.requirements, resolver))
  }

  /** The lists the evaluation loop fills. */
  datatype Tally = Tally(denies: seq<MatchedRule>, unsupported: seq<MatchedRule>, allows: seq<MatchedRule>,
                         undecided: seq<MatchedRule>, unmet: seq<Evaluation>, violated: seq<Evaluation>)

  const EMPTY_TALLY := Tally([], [], [], [], [], [])

  function TallyRule(t: Tally, rule: Rule, resolver: Resolver): Tally {
    var m := Matched(rule, resolver);
    var u := t.(violated := t.violated + Filter(m.requirements, IsViolated));
    if AllSatisfied(rule, resolver) then
      (match rule.verdict
       case DenyVerdict => u.(denies := u.denies + [m])
       case UnsupportedVerdict => u.(unsupported := u.unsupported + [m])
       case AllowVerdict => u.(allows := u.allows + [m])
       case UnknownVerdict => u)
    else if Undecided(rule, resolver) then
      u.(unmet := u.unmet + Filter(m.requirements, IsIndeterminate), undecided := u.undecided + [m])
    else u
  }

  function TallyRules(rules: seq<Rule>, resolver: Resolver): Tally {
    if rules == [] then EMPTY_TALLY
    else TallyRule(TallyRules(rules[..|rules| - 1], resolver), rules[|rules| - 1], resolver)
  }

  // ----- The decision -----

  predicate InForce(rule: Rule) { rule.live && rule.enabled }

  predicate ByPriority(a: Rule, b: Rule) {
    if a.priority != b.priority then a.priority > b.priority else a.id < b.id
  }

  function Take<T>(s: seq<T>, n: nat): seq<T> { if |s| > n then s[..n] else s }

  function Considered(rules: seq<Rule>, maxRules: nat): seq<Rule> {
    Take(Sort(Filter(rules, InForce), ByPriority), maxRules)
  }

  function OutcomeOfTally(t: Tally): CompatOutcome {
    if t.denies != [] then Incompatible
    else if t.unsupported != [] then CompatOutcome.Unsupported
    else if t.allows != [] && t.undecided == [] then Compatible
    else UnknownCompat
  }

  function ClosureOf(t: Tally): Closure {
    if OutcomeOfTally(t) != UnknownCompat then Closed
    else if t.undecided == [] then Open
    else Partial
  }

  function MatchedOf(t: Tally): seq<MatchedRule> {
    match OutcomeOfTally(t)
    case Incompatible => t.denies
    case Unsupported => t.unsupported
    case Compatible => t.allows
    case UnknownCompat => t.allows + t.undecided
  }

  // ----- Digests -----

  function SubjectCode(s: Subject): nat { if s == ModuleSubject then 0 else 1 }

  function OutcomeCode(o: Outcome): nat {
    match o
    case Unknown => 0
    case SingleSource => 1
    case Agreed => 2
    case Conflicting => 3
    case Superseded => 4
  }

  function CompatCode(o: CompatOutcome): nat {
    match o
    case UnknownCompat => 0
    case Compatible => 1
    case Incompatible => 2
    case Unsupported => 3
  }

  function ClosureCode(c: Closure): nat {
    match c
    case Open => 0
    case Partial => 1
    case Closed => 2
  }

  function VerdictCode(v: Verdict): nat {
    match v
    case UnknownVerdict => 0
    case AllowVerdict => 1
    case DenyVerdict => 2
    case UnsupportedVerdict => 3
  }

  predicate ReferenceLess(a: Reference, b: Reference) {
    if a.subject != b.subject then a.subject == ModuleSubject
    else if a.key != b.key then a.key < b.key
    else TextLess(a.subkey, b.subkey)
  }

  function ReferenceOf(r: Requirement): Reference { Reference(r.subject, r.key, r.subkey) }

  function AddReferences(refs: seq<Reference>, requirements: seq<Requirement>): seq<Reference> {
    if requirements == [] then refs
    else
      InsertUnique(ReferenceOf(requirements[|requirements| - 1]),
                   AddReferences(refs, requirements[..|requirements| - 1]), ReferenceLess)
  }

  /** The std::set of references over ALL rules passed in, retired and disabled ones included. */
  function References(rules: seq<Rule>): seq<Reference> {
    if rules == [] then []
    else AddReferences(References(rules[..|rules| - 1]), rules[|rules| - 1].requirements)
  }

  function ReferenceTokens(ref: Reference, resolver: Resolver): seq<Token> {
    var a := resolver(ref.subject, ref.key, ref.subkey);
    [BeginObject(6), Field("key"), Integer(ref.key), Field("outcome"),
     Integer(if a.Some? then OutcomeCode(a.value.outcome) else OutcomeCode(Unknown)),
     Field("subject"), Integer(SubjectCode(ref.subject)), Field("subkey"), TextToken(ref.subkey),
     Field("has_value"), BooleanToken(a.Some? && a.value.value.Some?), Field("value"),
     if a.Some? && a.value.value.Some? then ValueToken(a.value.value.value) else NullToken, EndObject]
  }

  function AllReferenceTokens(refs: seq<Reference>, resolver: Resolver): seq<Token> {
    if refs == [] then []
    else AllReferenceTokens(refs[..|refs| - 1], resolver) + ReferenceTokens(refs[|refs| - 1], resolver)
  }

  function InputTokens(query: Query, rules: seq<Rule>, resolver: Resolver): seq<Token> {
    var refs := References(rules);
    [BeginObject(4), Field("incarnation"), Integer(query.incarnation), Field("port"), TextToken(query.port),
     Field("attributes"), BeginArray(|refs|)] + AllReferenceTokens(refs, resolver) +
    [EndArray, Field("uid"), Integer(query.uid), EndObject]
  }

  function MatchedTokens(rules: seq<MatchedRule>): seq<Token> {
    if rules == [] then []
    else
      var m := rules[|rules| - 1];
      MatchedTokens(rules[..|rules| - 1]) +
      [BeginObject(3), Field("id"), Integer(m.id), Field("name"), TextToken(m.name), Field("verdict"),
       Integer(VerdictCode(m.verdict)), EndObject]
  }

  function DecisionTokens(outcome: CompatOutcome, closure: Closure, considered: nat, generation: nat,
                          inputsDigest: Text, matched: seq<MatchedRule>, query: Query): seq<Token>
  {
    [BeginObject(8), Field("closure"), Integer(ClosureCode(closure)), Field("considered_rules"),
     Integer(considered), Field("generation"), Integer(generation), Field("inputs_digest"),
     Binary(inputsDigest), Field("matched"), BeginArray(|matched|)] + MatchedTokens(matched) +
    [EndArray, Field("outcome"), Integer(CompatCode(outcome)), Field("uid"), Integer(query.uid),
     Field("incarnation"), Integer(query.incarnation), EndObject]
  }

  function Decide(query: Query, rules: seq<Rule>, resolver: Resolver, generation: nat, now: int, hash: Digest): Decision
  {
    var considered := Considered(rules, query.maxRules);
    var t := TallyRules(considered, resolver);
    var inputs := hash(InputTokens(query, rules, resolver));
    var outcome, closure, matched := OutcomeOfTally(t), ClosureOf(t), MatchedOf(t);
    Decision(outcome, closure, query.port, query.uid, query.incarnation, generation, |considered|, |t.undecided|,
             matched, t.unmet, t.violated, inputs,
             hash(DecisionTokens(outcome, closure, |considered|, generation, inputs, matched, query)), now)
  }

  // ----- The loops -----

  lemma TallyRulesLast(front: seq<Rule>, rule: Rule, resolver: Resolver)
    ensures TallyRules(front + [rule], resolver) == TallyRule(TallyRules(front, resolver), rule, resolver)
  {
    assert (front + [rule])[..|front|] == front;
  }

  /** The inner loop: every requirement of one rule. */
  method EvaluateRule(rule: Rule, resolver: Resolver, violatedBefore: seq<Evaluation>)
    returns (evaluated: MatchedRule, allSatisfied: bool, anyIndeterminate: bool, violated: seq<Evaluation>)
    ensures evaluated == Matched(rule, resolver)
    ensures allSatisfied == AllSatisfied(rule, resolver)
    ensures anyIndeterminate == Undecided(rule, resolver)
    ensures violated == violatedBefore + Filter(evaluated.requirements, IsViolated)
  {
    hide Filter, Evaluate;
    var done: seq<Evaluation> := [];
    allSatisfied, anyIndeterminate, violated := true, false, violatedBefore;
    FilterNone(IsViolated);
    for n := 0 to |rule.requirements|
      invariant |done| == n && forall i :: 0 <= i < n ==> done[i] == Evaluate(rule.requirements[i], resolver)
      invariant allSatisfied == forall i :: 0 <= i < n ==> IsSatisfied(done[i])
      invariant anyIndeterminate == exists i :: 0 <= i < n && IsIndeterminate(done[i])
      invariant violated == violatedBefore + Filter(done, IsViolated)
    {
      var evaluation := Evaluate(rule.requirements[n], resolver);
      FilterLast(done, evaluation, IsViolated);
      if evaluation.state == Violated {
        allSatisfied := false;
        violated := violated + [evaluation];
      } else if evaluation.state == Indeterminate {
        allSatisfied, anyIndeterminate := false, true;
      }
      done := done + [evaluation];
    }
    assert done == EvaluateAll(rule.requirements, resolver);
    evaluated := MatchedRule(rule.id, rule.name, rule.verdict, rule.priority, rule.generation, rule.rationale, done);
  }

  method Unmet(evaluations: seq<Evaluation>, before: seq<Evaluation>) returns (unmet: seq<Evaluation>)
    ensures unmet == before + Filter(evaluations, IsIndeterminate)
  {
    hide Filter;
    unmet := before;
    FilterNone(IsIndeterminate);
    for n := 0 to |evaluations|
      invariant unmet == before + Filter(evaluations[..n], IsIndeterminate)
    {
      FilterLast(evaluations[..n], evaluations[n], IsIndeterminate);
      assert evaluations[..n + 1] == evaluations[..n] + [evaluations[n]];
      if evaluations[n].state == Indeterminate {
        unmet := unmet + [evaluations[n]];
      }
    }
    assert evaluations[..|evaluations|] == evaluations;
  }

  method CollectInForce(rules: seq<Rule>) returns (ordered: seq<Rule>)
    ensures ordered == Filter(rules, InForce)
  {
    hide Filter;
    ordered := [];
    FilterNone(InForce);
    for n := 0 to |rules|
      invariant ordered == Filter(rules[..n], InForce)
    {
      FilterLast(rules[..n], rules[n], InForce);
      assert rules[..n + 1] == rules[..n] + [rules[n]];
      if rules[n].live && rules[n].enabled {
        ordered := ordered + [rules[n]];
      }
    }
    assert rules[..|rules|] == rules;
  }

  method TallyAll(ordered: seq<Rule>, resolver: Resolver) returns (tally: Tally)
    ensures tally == TallyRules(ordered, resolver)
  {
    hide Filter, AllSatisfied, Undecided, Matched, TallyRules;
    tally := EMPTY_TALLY;
    TallyNothing(resolver);
    for n := 0 to |ordered|
      invariant tally == TallyRules(ordered[..n], resolver)
    {
      var rule := ordered[n];
      ghost var before := tally;
      TallyRulesLast(ordered[..n], rule, resolver);
      assert ordered[..n + 1] == ordered[..n] + [rule];
      var evaluated, allSatisfied, anyIndeterminate, violated := EvaluateRule(rule, resolver, tally.violated);
      tally := tally.(violated := violated);
      if allSatisfied {
        match rule.verdict
        case DenyVerdict => tally := tally.(denies := tally.denies + [evaluated]);
        case UnsupportedVerdict => tally := tally.(unsupported := tally.unsupported + [evaluated]);
        case AllowVerdict => tally := tally.(allows := tally.allows + [evaluated]);
        case UnknownVerdict =>
      } else if anyIndeterminate {
        var unmet := Unmet(evaluated.requirements, tally.unmet);
        tally := tally.(unmet := unmet, undecided := tally.undecided + [evaluated]);
      }
      assert tally == TallyRule(before, rule, resolver);
    }
    assert ordered[..|ordered|] == ordered;
  }

  lemma TallyNothing(resolver: Resolver)
    ensures TallyRules([], resolver) == EMPTY_TALLY
  {
  }

  method CollectReferences(rules: seq<Rule>) returns (refs: seq<Reference>)
    ensures refs == References(rules)
  {
    hide InsertUnique;
    refs := [];
    for n := 0 to |rules|
      invariant refs == References(rules[..n])
    {
      assert rules[..n + 1][..n] == rules[..n];
      ghost var before := refs;
      var requirements := rules[n].requirements;
      for k := 0 to |requirements|
        invariant refs == AddReferences(before, requirements[..k])
      {
        assert requirements[..k + 1][..k] == requirements[..k];
        refs := InsertUnique(ReferenceOf(requirements[k]), refs, ReferenceLess);
      }
      assert requirements[..|requirements|] == requirements;
    }
    assert rules[..|rules|] == rules;
  }

  method DigestInputs(query: Query, rules: seq<Rule>, resolver: Resolver, hash: Digest) returns (digest: Text)
    ensures digest == hash(InputTokens(query, rules, resolver))
  {
    hide References, ReferenceTokens;
    var refs := CollectReferences(rules);
    var head := [BeginObject(4), Field("incarnation"), Integer(query.incarnation), Field("port"),
                 TextToken(query.port), Field("attributes"), BeginArray(|refs|)];
    var tokens := head;
    for n := 0 to |refs|
      invariant tokens == head + AllReferenceTokens(refs[..n], resolver)
    {
      assert refs[..n + 1][..n] == refs[..n];
      tokens := tokens + ReferenceTokens(refs[n], resolver);
    }
    assert refs[..|refs|] == refs;
    tokens := tokens + [EndArray, Field("uid"), Integer(query.uid), EndObject];
    digest := hash(tokens);
  }

  method StreamMatched(matched: seq<MatchedRule>, head: seq<Token>) returns (tokens: seq<Token>)
    ensures tokens == head + MatchedTokens(matched)
  {
    tokens := head;
    for n := 0 to |matched|
      invariant tokens == head + MatchedTokens(matched[..n])
    {
      assert matched[..n + 1][..n] == matched[..n];
      var m := matched[n];
      tokens := tokens + [BeginObject(3), Field("id"), Integer(m.id), Field("name"), TextToken(m.name),
                          Field("verdict"), Integer(VerdictCode(m.verdict)), EndObject];
    }
    assert matched[..|matched|] == matched;
  }

  /** evaluate_compatibility. */
  method EvaluateCompatibility(query: Query, rules: seq<Rule>, resolver: Resolver, generation: nat, now: int,
                               hash: Digest)
    returns (decision: Decision)
    ensures decision == Decide(query, rules, resolver, generation, now, hash)
  {
    hide Filter, Sort, TallyRules, InputTokens, MatchedTokens;
    var ordered := CollectInForce(rules);
    ordered := Sort(ordered, ByPriority);
    if |ordered| > query.maxRules {
      ordered := ordered[..query.maxRules];
    }
    var tally := TallyAll(ordered, resolver);
    var inputs := DigestInputs(query, rules, resolver, hash);
    var outcome, closure, matched := Incompatible, Closed, tally.denies;
    if tally.denies != [] {
    } else if tally.unsupported != [] {
      outcome, matched := CompatOutcome.Unsupported, tally.unsupported;
    } else if tally.allows != [] && tally.undecided == [] {
      outcome, matched := Compatible, tally.allows;
    } else {
      outcome := UnknownCompat;
      closure := if tally.undecided == [] then Open else Partial;
      matched := tally.allows + tally.undecided;
    }
    var tokens := StreamMatched(matched,
      [BeginObject(8), Field("closure"), Integer(ClosureCode(closure)), Field("considered_rules"),
       Integer(|ordered|), Field("generation"), Integer(generation), Field("inputs_digest"),
       Binary(inputs), Field("matched"), BeginArray(|matched|)]);
    tokens := tokens + [EndArray, Field("outcome"), Integer(CompatCode(outcome)), Field("uid"), Integer(query.uid),
                        Field("incarnation"), Integer(query.incarnation), EndObject];
    decision := Decision(outcome, closure, query.port, query.uid, query.incarnation, generation, |ordered|,
                         |tally.undecided|, matched, tally.unmet, tally.violated, inputs, hash(tokens), now);
  }
}
