/**
 * Compatibility queries against the registry: what is read off a state, and what the answer depends on,
 * src/registry.cpp:1891-1948.
 */
module Queries {
  import opened Bytes
  import opened Ordering
  import A = Authority
  import opened Consensus
  import opened Capability
  import opened Compatibility
  import opened Operators
  import opened Lifecycle
  import opened Health
  import opened Trim
  import opened TrimAnswers
  import opened Answers
  import RS = RegistryState
  import opened Mutations
  import opened RegistryInvariant
  import opened InvariantSteps
  import opened Runs
  import opened Resurrection
  import opened Effects
  import opened CallEffects

  // ----- The query -----

  /** CompatQuery; 0 stands for an invalid uid, incarnation or generation. */
  datatype Request = Request(port: Text, uid: nat, incarnation: nat, requireLatest: bool, expected: nat, maxRules: nat)

  /** The first group of the attribute, as the resolver's search finds it. */
  function Lookup(groups: seq<Group<CapabilityValue>>, key: nat, subkey: Text): Option<Attribute> {
    if groups == [] then None
    else if groups[0].key == GroupKey(key, subkey) then Some(Attribute(groups[0].outcome, groups[0].value))
    else Lookup(groups[1..], key, subkey)
  }

  function ModuleGroups(st: RS.State, uid: nat): seq<Group<CapabilityValue>>
    requires uid in st.modules
  {
    Build(LiveView(OfModule, st.modules[uid].declarations, st.modules[uid].incarnation, RS.Epochs(st.sources)))
  }

  function PortGroups(st: RS.State, port: Text): seq<Group<CapabilityValue>> {
    if port in st.ports then Build(LiveView(OfPort, st.ports[port].declarations, 0, RS.Epochs(st.sources))) else []
  }

  function ResolverOf(ofModule: seq<Group<CapabilityValue>>, ofPort: seq<Group<CapabilityValue>>): Resolver {
    (s: Subject, key: nat, subkey: Text) => Lookup(if s == ModuleSubject then ofModule else ofPort, key, subkey)
  }

  /** The live rules, in the order of the ids given. */
  function LiveRules(rules: map<nat, Rule>, ids: seq<nat>): seq<Rule>
    requires forall i :: 0 <= i < |ids| ==> ids[i] in rules
  {
    if ids == [] then []
    else
      var front := LiveRules(rules, ids[..|ids| - 1]);
      var r := rules[ids[|ids| - 1]];
      if r.live then front + [r] else front
  }

  /** The rule table in key order, dead rules left out. */
  function RulesInForce(st: RS.State): seq<Rule> {
    AscendingMembers(st.rules.Keys);
    LiveRules(st.rules, Ascending(st.rules.Keys))
  }

  lemma AscendingMembers(keys: set<nat>)
    ensures forall k :: k in Ascending(keys) <==> k in keys
  {
  }

  /** query_compatibility, on one published state. */
  function Answer(st: RS.State, q: Request, now: int, hash: Digest): Result<Decision> {
    if q.uid == 0 || q.incarnation == 0 || q.port == [] then Err(InvalidArgument)
    else if q.requireLatest && q.expected != 0 && q.expected != st.generation then Err(StaleGeneration)
    else if q.uid !in st.modules then Err(NotFound)
    else if st.modules[q.uid].incarnation != q.incarnation then Err(Fenced)
    else Ok(Decide(Query(q.port, q.uid, q.incarnation, q.maxRules), RulesInForce(st),
                   ResolverOf(ModuleGroups(st, q.uid), PortGroups(st, q.port)), st.generation, now, hash))
  }

  lemma {:induction false} LiveRulesAre(rules: map<nat, Rule>, ids: seq<nat>, r: Rule)
    requires forall i :: 0 <= i < |ids| ==> ids[i] in rules
    ensures r in LiveRules(rules, ids) <==> r.live && exists i :: 0 <= i < |ids| && rules[ids[i]] == r
  {
    if ids != [] {
      var front, last := ids[..|ids| - 1], ids[|ids| - 1];
      LiveRulesAre(rules, front, r);
      assert ids == front + [last];
      if i :| 0 <= i < |ids| && rules[ids[i]] == r {
        assert i < |front| ==> rules[front[i]] == r;
      }
      if i :| 0 <= i < |front| && rules[front[i]] == r {
        assert rules[ids[i]] == r;
      }
      assert rules[ids[|ids| - 1]] == rules[last];
    }
  }

  /** A query is decided on the live rules of the table, all of them and no other. */
  lemma RulesExactly(st: RS.State, r: Rule)
    ensures r in RulesInForce(st) <==> r.live && exists id :: id in st.rules && st.rules[id] == r
  {
    hide LiveRules, Ascending;
    var ids := Ascending(st.rules.Keys);
    AscendingMembers(st.rules.Keys);
    LiveRulesAre(st.rules, ids, r);
    if id :| id in st.rules && st.rules[id] == r {
      var i :| 0 <= i < |ids| && ids[i] == id;
      assert st.rules[ids[i]] == r;
    }
  }

  /** The loop over the rule table. */
  method CollectLiveRules(rules: map<nat, Rule>, ids: seq<nat>) returns (live: seq<Rule>)
    requires forall i :: 0 <= i < |ids| ==> ids[i] in rules
    ensures live == LiveRules(rules, ids)
  {
    live := [];
    for n := 0 to |ids|
      invariant live == LiveRules(rules, ids[..n])
    {
      assert ids[..n + 1][..n] == ids[..n];
      if rules[ids[n]].live {
        live := live + [rules[ids[n]]];
      }
    }
    assert ids[..|ids|] == ids;
  }

  method QueryCompatibility(st: RS.State, q: Request, now: int, hash: Digest) returns (r: Result<Decision>)
    ensures r == Answer(st, q, now, hash)
  {
    hide Decide, LiveView, Build, Ascending, LiveRules, Lookup;
    if q.uid == 0 || q.incarnation == 0 || q.port == [] {
      return Err(InvalidArgument);
    }
    if q.requireLatest && q.expected != 0 && q.expected != st.generation {
      return Err(StaleGeneration);
    }
    if q.uid !in st.modules {
      return Err(NotFound);
    }
    var record := st.modules[q.uid];
    if record.incarnation != q.incarnation {
      return Err(Fenced);
    }
    var view := MarkLive(OfModule, record.declarations, record.incarnation, RS.Epochs(st.sources));
    var ofModule := BuildConsensus(view);
    var ofPort := [];
    if q.port in st.ports {
      view := MarkLive(OfPort, st.ports[q.port].declarations, 0, RS.Epochs(st.sources));
      ofPort := BuildConsensus(view);
    }
    AscendingMembers(st.rules.Keys);
    var live := CollectLiveRules(st.rules, Ascending(st.rules.Keys));
    var decision := EvaluateCompatibility(Query(q.port, q.uid, q.incarnation, q.maxRules), live,
                                          ResolverOf(ofModule, ofPort), st.generation, now, hash);
    return Ok(decision);
  }

  // ----- What the resolver says -----

  /** Somebody live states the attribute, and everybody live who does gives this value. */
  ghost predicate SaysOnly(s: seq<RS.Declaration>, kind: ClaimKind, incarnation: nat, e: map<nat, nat>, key: nat,
                           subkey: Text, v: CapabilityValue)
  {
    && (exists c :: ClaimLive(kind, s, incarnation, e, c) && c.attr == key && c.subkey == subkey)
    && forall c :: ClaimLive(kind, s, incarnation, e, c) && c.attr == key && c.subkey == subkey ==> c.value == v
  }

  lemma {:induction false} LookupExactly(groups: seq<Group<CapabilityValue>>, key: nat, subkey: Text)
    ensures var a := Lookup(groups, key, subkey);
      && (a == None <==> forall h :: h in groups ==> h.key != GroupKey(key, subkey))
      && (a.Some? ==> exists h :: h in groups && h.key == GroupKey(key, subkey)
                                  && a.value == Attribute(h.outcome, h.value))
  {
    if groups != [] && groups[0].key != GroupKey(key, subkey) {
      LookupExactly(groups[1..], key, subkey);
      assert groups == [groups[0]] + groups[1..];
    } else if groups != [] {
      assert groups[0] in groups;
    }
  }

  /** The attribute is settled on a value: agreed, or by a single source. */
  predicate SettledOn(a: Option<Attribute>, v: CapabilityValue) {
    a == Some(Attribute(Agreed, Some(v))) || a == Some(Attribute(SingleSource, Some(v)))
  }

  lemma GroupSettled(kind: ClaimKind, s: seq<RS.Declaration>, incarnation: nat, e: map<nat, nat>, key: nat,
                     subkey: Text, v: CapabilityValue)
    requires OneSubject(kind, s) && Orderly(s)
    requires kind == OfPort ==> forall o :: o in s ==> o.incarnation == incarnation
    ensures SettledOn(Lookup(Build(LiveView(kind, s, incarnation, e)), key, subkey), v) <==>
            SaysOnly(s, kind, incarnation, e, key, subkey, v)
  {
    hide OneSubject, Orderly, Stands, ClaimLive, Build, LiveView, AnswerFor, Lookup, Disputed, Single;
    var groups := Build(LiveView(kind, s, incarnation, e));
    var g := AnswerFor(kind, s, incarnation, e, key, subkey);
    LookupExactly(groups, key, subkey);
    AnswerExactly(kind, s, incarnation, e, key, subkey);
    forall c
      ensures Stands(kind, s, incarnation, e, key, subkey, c) <==>
              ClaimLive(kind, s, incarnation, e, c) && c.attr == key && c.subkey == subkey
    {
      LiveStandsHere(kind, s, incarnation, e, key, subkey, c);
    }
    if c :| Stands(kind, s, incarnation, e, key, subkey, c) {
      StandingIsStated(kind, s, incarnation, e, key, subkey, c);
      if forall d :: Stands(kind, s, incarnation, e, key, subkey, d) ==> d.value == v {
        DisputeShown(kind, s, incarnation, e, key, subkey, v);
      }
    }
  }

  lemma StandingIsStated(kind: ClaimKind, s: seq<RS.Declaration>, incarnation: nat, e: map<nat, nat>, key: nat,
                         subkey: Text, c: RS.Declaration)
    requires Stands(kind, s, incarnation, e, key, subkey, c)
    ensures Stated(kind, s, incarnation, key, subkey)
  {
  }

  lemma DisputeShown(kind: ClaimKind, s: seq<RS.Declaration>, incarnation: nat, e: map<nat, nat>, key: nat,
                     subkey: Text, v: CapabilityValue)
    requires forall c :: Stands(kind, s, incarnation, e, key, subkey, c) ==> c.value == v
    ensures !Disputed(kind, s, incarnation, e, key, subkey)
  {
    hide Stands;
  }

  /** A live declaration of the module or of the port, as the state has it. */
  ghost predicate LiveFact(st: RS.State, uid: nat, port: Text, subject: Subject, c: RS.Declaration) {
    if subject == ModuleSubject then DeclarationLive(st, uid, c) else PortDeclarationLive(st, port, c)
  }

  /** Somebody live states the attribute of the subject, and everybody live who does gives this value. */
  ghost predicate Fact(st: RS.State, uid: nat, port: Text, subject: Subject, key: nat, subkey: Text,
                       v: CapabilityValue)
  {
    && (exists c :: LiveFact(st, uid, port, subject, c) && c.attr == key && c.subkey == subkey)
    && forall c :: LiveFact(st, uid, port, subject, c) && c.attr == key && c.subkey == subkey ==> c.value == v
  }

  /** What a query takes an attribute to be is exactly what the live declarations of its subject agree on. */
  lemma ResolvedExactly(st: RS.State, uid: nat, port: Text, subject: Subject, key: nat, subkey: Text,
                        v: CapabilityValue)
    requires Good(st) && uid in st.modules
    ensures SettledOn(ResolverOf(ModuleGroups(st, uid), PortGroups(st, port))(subject, key, subkey), v) <==>
            Fact(st, uid, port, subject, key, subkey, v)
  {
    hide Good, ClaimLive, Build, LiveView, Lookup, OneSubject, Orderly;
    if subject == ModuleSubject {
      ModuleLists(st, uid);
      GroupSettled(OfModule, st.modules[uid].declarations, st.modules[uid].incarnation, RS.Epochs(st.sources), key,
                   subkey, v);
      assert forall c :: LiveFact(st, uid, port, subject, c) <==>
                         ClaimLive(OfModule, st.modules[uid].declarations, st.modules[uid].incarnation,
                                   RS.Epochs(st.sources), c);
    } else if port in st.ports {
      PortLists(st, port);
      GroupSettled(OfPort, st.ports[port].declarations, 0, RS.Epochs(st.sources), key, subkey, v);
      assert forall c :: LiveFact(st, uid, port, subject, c) <==>
                         ClaimLive(OfPort, st.ports[port].declarations, 0, RS.Epochs(st.sources), c);
    } else {
      NothingFound(key, subkey);
    }
  }

  lemma NothingFound(key: nat, subkey: Text)
    ensures Lookup([], key, subkey) == None
  {
  }

  // ----- From publication to decision -----

  /** The query is answered at all. */
  predicate Askable(st: RS.State, q: Request) {
    && q.uid != 0 && q.incarnation != 0 && q.port != []
    && (q.requireLatest && q.expected != 0 ==> q.expected == st.generation)
    && q.uid in st.modules && st.modules[q.uid].incarnation == q.incarnation
  }

  /** One rule is live in the table; it is enabled, with one requirement and a verdict. */
  ghost predicate OnlyRule(st: RS.State, rule: Rule, r: Requirement) {
    && RulesInForce(st) == [rule] && InForce(rule) && rule.verdict != UnknownVerdict && rule.requirements == [r]
  }

  /**
   * A bound decides on what live sources agree on: the rule's verdict is given exactly when the number published for
   * the module or the port is within the bound.
   */
  lemma BoundIsEnforced(st: RS.State, q: Request, rule: Rule, r: Requirement, v: CapabilityValue, x: real, y: real,
                        now: int, hash: Digest)
    requires Good(st) && Askable(st, q) && q.maxRules >= 1 && OnlyRule(st, rule, r)
    requires Fact(st, q.uid, q.port, r.subject, r.key, r.subkey, v) && IsNumber(v, x) && IsNumber(r.operand, y)
    ensures Answer(st, q, now, hash).Ok?
    ensures var d := Answer(st, q, now, hash).value;
      && (r.op == AtMost ==> Replies(d, rule.verdict, if x <= y then Holds else Fails))
      && (r.op == AtLeast ==> Replies(d, rule.verdict, if x >= y then Holds else Fails))
  {
    hide Good, Fact, Decide, Replies, RulesInForce, ModuleGroups, PortGroups, ResolverOf;
    var resolver := ResolverOf(ModuleGroups(st, q.uid), PortGroups(st, q.port));
    ResolvedExactly(st, q.uid, q.port, r.subject, r.key, r.subkey, v);
    BoundsDecide(Query(q.port, q.uid, q.incarnation, q.maxRules), rule, r, resolver, v, x, y, st.generation, now, hash);
  }

  /**
   * What nobody live states, or live sources dispute, no rule can be decided on: it stays open, whatever its verdict.
   */
  lemma NoFactNoDecision(st: RS.State, q: Request, rule: Rule, r: Requirement, now: int, hash: Digest)
    requires Good(st) && Askable(st, q) && q.maxRules >= 1 && OnlyRule(st, rule, r)
    requires forall v :: !Fact(st, q.uid, q.port, r.subject, r.key, r.subkey, v)
    ensures Answer(st, q, now, hash).Ok?
    ensures Replies(Answer(st, q, now, hash).value, rule.verdict, CannotTell)
  {
    hide Good, Fact, Decide, Replies, RulesInForce, ModuleGroups, PortGroups, ResolverOf;
    var resolver := ResolverOf(ModuleGroups(st, q.uid), PortGroups(st, q.port));
    forall v ensures !Settled(resolver, r, v) {
      ResolvedExactly(st, q.uid, q.port, r.subject, r.key, r.subkey, v);
    }
    UnsettledIsUndetermined(Query(q.port, q.uid, q.incarnation, q.maxRules), rule, r, resolver, st.generation, now,
                            hash);
  }

  /**
   * The value a committed publication gives is a fact for every query, unless another live source states the attribute.
   */
  lemma PublicationIsFact(st: RS.State, call: RS.Call, config: RS.Config, next: RS.State, port: Text)
    requires Good(st) && call.op.PublishCapability? && Attempt(st, call, config) == Ok(next)
    requires config.maxClaimHistory >= 1
    requires forall c ::
               DeclarationLive(st, call.op.target.uid, c) && c.attr == call.op.capability
                 && c.subkey == call.op.subkey ==>
               c.source == call.op.authority.source
    ensures Fact(next, call.op.target.uid, port, ModuleSubject, call.op.capability, call.op.subkey, call.op.content)
  {
    hide Inv, Attempt, ClaimLive;
    var op := call.op; var uid := op.target.uid;
    var d := Claim(op.capability, op.subkey, op.content, op.authority.source, op.authority.epoch, uid,
                   op.target.incarnation, [], st.generation + 1, st.nextSequence, call.clock.wallNs, op.provenance,
                   true);
    PublishEffect(st, call, config, next, d);
    assert LiveFact(next, uid, port, ModuleSubject, d);
    forall c | LiveFact(next, uid, port, ModuleSubject, c) && c.attr == op.capability && c.subkey == op.subkey
      ensures c.value == op.content
    {
      PublishEffect(st, call, config, next, c);
      if c != d {
        LiveOrigin(st, uid, c);
        LiveOrigin(next, uid, d);
      }
    }
  }

  lemma LiveOrigin(st: RS.State, uid: nat, c: RS.Declaration)
    requires DeclarationLive(st, uid, c)
    ensures c.incarnation == st.modules[uid].incarnation && c.source in st.sources
    ensures c.epoch == st.sources[c.source].epoch
  {
  }

  /** A source that reconnects as another instance takes back everything it alone said, until it says it again. */
  lemma ReconnectSilences(st: RS.State, call: RS.Call, config: RS.Config, next: RS.State, uid: nat, port: Text,
                          subject: Subject, key: nat, subkey: Text, v: CapabilityValue)
    requires Good(st) && call.op.RegisterSource? && Attempt(st, call, config) == Ok(next)
    requires call.op.name in st.sourceIdByName && st.sourceIdByName[call.op.name] in st.sources
    requires call.op.instanceId == [] || call.op.instanceId != st.sources[st.sourceIdByName[call.op.name]].instanceId
    requires forall c :: LiveFact(st, uid, port, subject, c) && c.attr == key && c.subkey == subkey ==>
               c.source == st.sourceIdByName[call.op.name]
    ensures !Fact(next, uid, port, subject, key, subkey, v)
  {
    hide Good, Attempt, LiveFact;
    KnownSourceEffect(st, call, config, next);
    forall c ensures !(LiveFact(next, uid, port, subject, c) && c.attr == key && c.subkey == subkey) {
      if LiveFact(next, uid, port, subject, c) {
        OnlyOthersSpeak(st, next, uid, port, subject, c, st.sourceIdByName[call.op.name]);
      }
    }
  }

  lemma OnlyOthersSpeak(st: RS.State, next: RS.State, uid: nat, port: Text, subject: Subject, c: RS.Declaration,
                        id: nat)
    requires Good(st) && next.modules == st.modules && next.ports == st.ports && id in st.sources && id in next.sources
    requires next.sources == st.sources[id := next.sources[id]] && st.sources[id].epoch < next.sources[id].epoch
    requires LiveFact(next, uid, port, subject, c)
    ensures c.source != id && LiveFact(st, uid, port, subject, c)
  {
    EpochPast(st, uid, port, subject, c);
    hide Good, Shadowed;
  }

  /** No stored declaration is ahead of its source's epoch. */
  lemma EpochPast(st: RS.State, uid: nat, port: Text, subject: Subject, c: RS.Declaration)
    requires Good(st)
    requires if subject == ModuleSubject then uid in st.modules && c in st.modules[uid].declarations
             else port in st.ports && c in st.ports[port].declarations
    ensures c.source in st.sources && c.epoch <= st.sources[c.source].epoch
  {
    var e, n := RS.Epochs(st.sources), st.nextSequence;
    if subject == ModuleSubject {
      RecordAt(st, uid, n);
      hide Inv;
      OwnLists(st.modules[uid], uid, e, n);
    } else {
      PortAt(st, port, n);
      hide Inv;
    }
  }

  // ----- What a decision depends on -----

  /**
   * The call can bear on queries about this module and port: its sources, its declarations, its incarnation, the rules.
   */
  predicate Bears(op: RS.Op, st: RS.State, uid: nat, port: Text) {
    match op
    case RegisterSource(_, _, _) => true
    case RegisterModule(key, _, intent, _, _, _) =>
      intent == RS.NewIncarnation && key in st.moduleUidByKey && st.moduleUidByKey[key] == uid
    case PublishCapability(_, h, _, _, _, _, _) => h.uid == uid
    case PublishPortCapability(_, p, _, _, _, _, _) => p == port
    case PublishRule(_, _, _) => true
    case RetireRule(_, _) => true
    case _ => false
  }

  /** A query reads the same from both states. */
  predicate ReadsAlike(st: RS.State, next: RS.State, uid: nat, port: Text) {
    && uid in st.modules && uid in next.modules
    && next.modules[uid].declarations == st.modules[uid].declarations
    && next.modules[uid].incarnation == st.modules[uid].incarnation && next.modules[uid].key == st.modules[uid].key
    && (port in next.ports <==> port in st.ports)
    && (port in st.ports ==> next.ports[port].declarations == st.ports[port].declarations)
    && next.rules == st.rules && RS.Epochs(next.sources) == RS.Epochs(st.sources)
  }

  /** The same decision, but for the generation it was made at, the time, and the digest that covers the generation. */
  predicate SameDecision(a: Decision, b: Decision) {
    a.(generation := b.generation, evaluatedAt := b.evaluatedAt, decisionDigest := b.decisionDigest) == b
  }

  lemma AlikeDecides(st: RS.State, next: RS.State, q: Request, now: int, later: int, hash: Digest)
    requires ReadsAlike(st, next, q.uid, q.port) && !q.requireLatest && Answer(st, q, now, hash).Ok?
    ensures Answer(next, q, later, hash).Ok?
    ensures SameDecision(Answer(st, q, now, hash).value, Answer(next, q, later, hash).value)
  {
    hide Build, LiveView, Considered, TallyRules, InputTokens, DecisionTokens, LiveRules, Ascending;
    assert PortGroups(next, q.port) == PortGroups(st, q.port);
    assert ModuleGroups(next, q.uid) == ModuleGroups(st, q.uid);
    assert RulesInForce(next) == RulesInForce(st);
  }

  lemma StepReadsAlike(st: RS.State, call: RS.Call, config: RS.Config, next: RS.State, uid: nat, port: Text)
    requires Good(st) && uid in st.modules && Attempt(st, call, config) == Ok(next) && config.maxClaimHistory >= 1
    requires !Bears(call.op, st, uid, port)
    ensures ReadsAlike(st, next, uid, port)
  {
    hide Good, Attempt, ReadsAlike;
    match call.op
    case RegisterModule(_, _, _, _, _, _) => RegistrationReadsAlike(st, call, config, next, uid, port);
    case UpdateIdentity(_, _, _, _) => PublicationReadsAlike(st, call, config, next, uid, port);
    case PublishCapability(_, _, _, _, _, _, _) => PublicationReadsAlike(st, call, config, next, uid, port);
    case PublishPortCapability(_, _, _, _, _, _, _) => PublicationReadsAlike(st, call, config, next, uid, port);
    case _ => MoveReadsAlike(st, call, config, next, uid, port);
  }

  lemma PublicationReadsAlike(st: RS.State, call: RS.Call, config: RS.Config, next: RS.State, uid: nat, port: Text)
    requires Good(st) && uid in st.modules && Attempt(st, call, config) == Ok(next) && config.maxClaimHistory >= 1
    requires call.op.UpdateIdentity? || call.op.PublishCapability? || call.op.PublishPortCapability?
    requires !Bears(call.op, st, uid, port)
    ensures ReadsAlike(st, next, uid, port)
  {
    hide Good, Attempt, IdentityLive, DeclarationLive, PortDeclarationLive, Restates, RS.Epochs, StatedBy, NewClaim,
         StampOf;
    var s := StampOf(st, call);
    match call.op
    case UpdateIdentity(a, h, v, _) => UpdateEffect(st, call, config, next, StatedBy(v, a, h.uid, h.incarnation, s));
    case PublishCapability(a, h, key, subkey, value, _, _) =>
      PublishEffect(st, call, config, next, NewClaim(key, subkey, value, a, h.uid, h.incarnation, [], s));
    case PublishPortCapability(a, p, key, subkey, value, _, _) =>
      PublishPortEffect(st, call, config, next, NewClaim(key, subkey, value, a, 0, 0, p, s));
  }

  /** At most one module changed, and neither its declarations, its incarnation nor its key; no query reads the rest. */
  predicate OneMoved(st: RS.State, next: RS.State, moved: nat) {
    && moved in st.modules && moved in next.modules
    && next.modules == st.modules[moved := next.modules[moved]]
    && next.modules[moved].declarations == st.modules[moved].declarations
    && next.modules[moved].incarnation == st.modules[moved].incarnation
    && next.modules[moved].key == st.modules[moved].key
    && next.ports == st.ports && next.rules == st.rules && next.sources == st.sources
  }

  lemma OneMovedReadsAlike(st: RS.State, next: RS.State, moved: nat, uid: nat, port: Text)
    requires OneMoved(st, next, moved) && uid in st.modules
    ensures ReadsAlike(st, next, uid, port)
  {
  }

  lemma FilledMoves(st: RS.State, call: RS.Call, next: RS.State, a: RS.Authority, h: RS.Handle, slot: Text,
                    portIndex: nat, config: RS.Config)
    requires Filled(st, call, next, a, h, slot, portIndex, config)
    ensures OneMoved(st, next, h.uid)
  {
    hide Retained, Ascii, Note;
  }

  lemma DetachMoves(st: RS.State, call: RS.Call, config: RS.Config, next: RS.State)
    requires Good(st) && call.op.Detach? && Attempt(st, call, config) == Ok(next)
    ensures call.op.slot in st.attachments && OneMoved(st, next, st.attachments[call.op.slot].uid)
  {
    hide Good, Attempt, Retained, Ascii, Note;
    DetachFrees(st, call, config, next);
  }

  lemma IngestMoves(st: RS.State, call: RS.Call, config: RS.Config, next: RS.State)
    requires Good(st) && call.op.IngestHealth? && Attempt(st, call, config) == Ok(next)
    ensures OneMoved(st, next, call.op.target.uid)
  {
    hide Good, Attempt;
    IngestEffect(st, call, config, next);
  }

  lemma LifecycleMoves(st: RS.State, call: RS.Call, config: RS.Config, next: RS.State)
    requires Good(st) && (call.op.Transition? || call.op.Reconcile?) && Attempt(st, call, config) == Ok(next)
    ensures OneMoved(st, next, call.op.target.uid)
  {
    hide Good, Attempt, Retained;
    if call.op.Transition? {
      TransitionEffect(st, call, config, next);
    } else {
      ReconcileEffect(st, call, config, next);
    }
  }

  lemma BumpReadsAlike(st: RS.State, next: RS.State, uid: nat, port: Text)
    requires uid in st.modules
    requires next == Bumped(st).(thresholds := next.thresholds)
    ensures ReadsAlike(st, next, uid, port)
  {
  }

  lemma MoveReadsAlike(st: RS.State, call: RS.Call, config: RS.Config, next: RS.State, uid: nat, port: Text)
    requires Good(st) && uid in st.modules && Attempt(st, call, config) == Ok(next)
    requires call.op.Attach? || call.op.Detach? || call.op.IngestHealth? || call.op.PublishThreshold?
          || call.op.Transition? || call.op.Reconcile?
    ensures ReadsAlike(st, next, uid, port)
  {
    hide Good, Attempt, ReadsAlike, OneMoved, Filled, AlreadyIn;
    match call.op
    case Attach(_, h, _, _) =>
      AttachFills(st, call, config, next);
      if AlreadyIn(st, call.op.slot, h) {
        BumpReadsAlike(st, next, uid, port);
      } else {
        FilledMoves(st, call, next, call.op.authority, h, call.op.slot, call.op.portIndex, config);
        OneMovedReadsAlike(st, next, h.uid, uid, port);
      }
    case Detach(_, slot) =>
      DetachMoves(st, call, config, next);
      OneMovedReadsAlike(st, next, st.attachments[slot].uid, uid, port);
    case IngestHealth(_, h, _) =>
      IngestMoves(st, call, config, next);
      OneMovedReadsAlike(st, next, h.uid, uid, port);
    case PublishThreshold(_, t) =>
      ThresholdEffect(st, call, config, next, RS.ThresholdRecord(t, true));
      BumpReadsAlike(st, next, uid, port);
    case Transition(_, h, _, _) =>
      LifecycleMoves(st, call, config, next);
      OneMovedReadsAlike(st, next, h.uid, uid, port);
    case Reconcile(_, h) =>
      LifecycleMoves(st, call, config, next);
      OneMovedReadsAlike(st, next, h.uid, uid, port);
  }

  lemma FirstReadsAlike(st: RS.State, call: RS.Call, next: RS.State, key: Text, a: RS.Authority, config: RS.Config,
                        uid: nat, port: Text)
    requires FirstSeen(st, call, next, key, a, config) && st.nextModuleUid !in st.modules && uid in st.modules
    ensures ReadsAlike(st, next, uid, port)
  {
    hide Retained, RegisteredFrom;
  }

  lemma RepeatReadsAlike(st: RS.State, call: RS.Call, next: RS.State, known: nat, a: RS.Authority, config: RS.Config,
                         uid: nat, port: Text)
    requires SeenAgain(st, call, next, known, a, config) && uid in st.modules
    ensures ReadsAlike(st, next, uid, port)
  {
    hide Retained;
  }

  lemma ReplacedReadsAlike(st: RS.State, call: RS.Call, next: RS.State, known: nat, a: RS.Authority, config: RS.Config,
                           uid: nat, port: Text)
    requires NewlySeen(st, call, next, known, a, config) && uid in st.modules && uid != known
    ensures ReadsAlike(st, next, uid, port)
  {
    hide Retained, RegisteredFrom;
  }

  lemma RegistrationReadsAlike(st: RS.State, call: RS.Call, config: RS.Config, next: RS.State, uid: nat, port: Text)
    requires Good(st) && uid in st.modules && Attempt(st, call, config) == Ok(next)
    requires call.op.RegisterModule? && !Bears(call.op, st, uid, port)
    ensures ReadsAlike(st, next, uid, port)
  {
    hide Good, Attempt, FirstSeen, SeenAgain, NewlySeen, ReadsAlike;
    var key, a := call.op.key, call.op.authority;
    if key !in st.moduleUidByKey {
      FirstRegistration(st, call, config, next);
      GoodIsInv(st);
      UidIsNew(st, st.nextSequence);
      FirstReadsAlike(st, call, next, key, a, config, uid, port);
    } else if call.op.intent == RS.EnsureCurrent {
      RepeatedRegistration(st, call, config, next);
      RepeatReadsAlike(st, call, next, st.moduleUidByKey[key], a, config, uid, port);
    } else {
      NewIncarnationRegistration(st, call, config, next);
      ReplacedReadsAlike(st, call, next, st.moduleUidByKey[key], a, config, uid, port);
    }
  }

  lemma GoodIsInv(st: RS.State)
    requires Good(st)
    ensures Inv(st, st.nextSequence)
  {
  }

  /** The same call bears on a module whatever came between: an index entry stays. */
  predicate Concerns(op: RS.Op, key: Text, uid: nat, port: Text) {
    match op
    case RegisterSource(_, _, _) => true
    case RegisterModule(k, _, intent, _, _, _) => intent == RS.NewIncarnation && k == key
    case PublishCapability(_, h, _, _, _, _, _) => h.uid == uid
    case PublishPortCapability(_, p, _, _, _, _, _) => p == port
    case PublishRule(_, _, _) => true
    case RetireRule(_, _) => true
    case _ => false
  }

  lemma ConcernsIsBears(op: RS.Op, st: RS.State, uid: nat, port: Text)
    requires Good(st) && uid in st.modules && !Concerns(op, st.modules[uid].key, uid, port)
    ensures !Bears(op, st, uid, port)
  {
    hide RecordsOk, PortsOk, AttachmentsOk, ThresholdsOk, RulesOk, SourcesOk;
  }

  /**
   * Over any run, queries about a module and a port are decided as before as long as no call registers a source,
   * changes the rules, replaces the module, or publishes for this module or this port: identity updates, telemetry,
   * thresholds, attachments, lifecycle moves and everything about other modules and ports leave the decision alone.
   */
  lemma {:induction false} DecisionStays(st: RS.State, calls: seq<RS.Call>, config: RS.Config, q: Request, now: int,
                                         later: int, hash: Digest)
    requires Good(st) && config.maxClaimHistory >= 1 && !q.requireLatest && Answer(st, q, now, hash).Ok?
    requires forall i :: 0 <= i < |calls| ==> !Concerns(calls[i].op, st.modules[q.uid].key, q.uid, q.port)
    ensures Answer(RunCalls(st, calls, config), q, later, hash).Ok?
    ensures SameDecision(Answer(st, q, now, hash).value, Answer(RunCalls(st, calls, config), q, later, hash).value)
  {
    hide Good, Attempt, Decide, ModuleGroups, PortGroups;
    RunReadsAlike(st, calls, config, q.uid, q.port);
    hide RunCalls, ReadsAlike, SameDecision;
    AlikeDecides(st, RunCalls(st, calls, config), q, now, later, hash);
  }

  lemma {:induction false} RunReadsAlike(st: RS.State, calls: seq<RS.Call>, config: RS.Config, uid: nat, port: Text)
    requires Good(st) && config.maxClaimHistory >= 1 && uid in st.modules
    requires forall i :: 0 <= i < |calls| ==> !Concerns(calls[i].op, st.modules[uid].key, uid, port)
    ensures ReadsAlike(st, RunCalls(st, calls, config), uid, port)
  {
    hide Good, Attempt, Concerns, Bears, RS.Epochs;
    if calls != [] {
      var front, call := calls[..|calls| - 1], calls[|calls| - 1];
      RunReadsAlike(st, front, config, uid, port);
      RunKeepsInvariant(st, front, config);
      var before := RunCalls(st, front, config);
      match Attempt(before, call, config)
      case Ok(next) =>
        ConcernsIsBears(call.op, before, uid, port);
        StepReadsAlike(before, call, config, next, uid, port);
      case Err(_) =>
    }
  }
}