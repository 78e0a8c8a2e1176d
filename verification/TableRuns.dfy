/** The rule table and the threshold history over whole runs, src/registry.cpp:1476-1527, 1825-1880. */
module TableRuns {
  import opened Bytes
  import A = Authority
  import opened Compatibility
  import opened Lifecycle
  import opened Latch
  import opened Health
  import opened HealthReport
  import opened Trim
  import opened Samples
  import opened RegistryState
  import opened Validation
  import opened Mutations
  import opened RegistryInvariant
  import opened InvariantSteps
  import opened Runs

  // ----- Which calls touch the two tables -----

  lemma OpenLeavesTables(st: State, key: Text, intent: Intent, a: RegistryState.Authority, config: Config, s: Stamp)
    requires OpenModule(st, key, intent, a, config, s).Ok?
    ensures var next := OpenModule(st, key, intent, a, config, s).value.st;
      next.rules == st.rules && next.nextRuleId == st.nextRuleId && next.thresholds == st.thresholds
  {
    hide NextIncarnation, NewModule, DetachAll, Gone;
  }

  lemma RegisterModuleLeavesTables(st: State, key: Text, identity: seq<IdentityValue>, intent: Intent,
                                   a: RegistryState.Authority, config: Config, s: Stamp)
    requires RegisterModuleBody(st, key, identity, intent, a, config, s).Ok?
    ensures var next := RegisterModuleBody(st, key, identity, intent, a, config, s).value;
      next.rules == st.rules && next.nextRuleId == st.nextRuleId && next.thresholds == st.thresholds
  {
    hide Authorize, OpenModule, EnsureRegistered, IdentityClaims, TrimClaims, Capped;
    OpenLeavesTables(st, key, intent, a, config, s);
  }

  lemma DetachLeavesTables(st: State, a: RegistryState.Authority, slot: Text, config: Config, s: Stamp)
    requires DetachBody(st, a, slot, config, s).Ok?
    ensures var next := DetachBody(st, a, slot, config, s).value;
      next.rules == st.rules && next.nextRuleId == st.nextRuleId && next.thresholds == st.thresholds
  {
    hide Authorize, Capped, Advanced, TransitionAllowed, ImpliesAttachment;
  }

  lemma MovingBodiesLeaveTables(st: State, call: Call, config: Config, s: Stamp)
    requires Body(st, call, config, s).Ok?
    requires call.op.Attach? || call.op.Transition? || call.op.Reconcile?
    ensures var next := Body(st, call, config, s).value;
      next.rules == st.rules && next.nextRuleId == st.nextRuleId && next.thresholds == st.thresholds
  {
    hide ModuleAt, Capped, Advanced, TransitionAllowed, ReportOf, EvidenceOf, ReconcileTarget, HeldBy, LiveSlots;
  }

  lemma OtherBodiesLeaveTables(st: State, call: Call, config: Config, s: Stamp)
    requires Body(st, call, config, s).Ok?
    requires call.op.RegisterSource? || call.op.UpdateIdentity? || call.op.PublishCapability?
          || call.op.PublishPortCapability? || call.op.IngestHealth?
    ensures var next := Body(st, call, config, s).value;
      next.rules == st.rules && next.nextRuleId == st.nextRuleId && next.thresholds == st.thresholds
  {
    hide Authorize, ModuleAt, TrimClaims, TrimList, PublishOnPort, NewClaim, TrimRing, Latched, StoredSample, Replayed,
         Pushed, LiveThresholds;
  }

  lemma OwnTableTouched(st: State, call: Call, config: Config, s: Stamp)
    requires Body(st, call, config, s).Ok? && (call.op.PublishThreshold? || call.op.PublishRule? || call.op.RetireRule?)
    ensures var next := Body(st, call, config, s).value;
      && (call.op.PublishThreshold? ==> next.rules == st.rules && next.nextRuleId == st.nextRuleId)
      && (!call.op.PublishThreshold? ==> next.thresholds == st.thresholds)
  {
    hide Authorize, Retire, BoundHistory, LiveThresholds;
  }

  /** Only the two rule calls touch the rules, and only threshold publication the thresholds. */
  lemma TablesTouched(st: State, call: Call, config: Config, s: Stamp)
    requires Body(st, call, config, s).Ok?
    ensures var next := Body(st, call, config, s).value;
      && (!call.op.PublishRule? && !call.op.RetireRule? ==> next.rules == st.rules && next.nextRuleId == st.nextRuleId)
      && (!call.op.PublishThreshold? ==> next.thresholds == st.thresholds)
  {
    hide RegisterModuleBody, DetachBody, Authorize, Retire, BoundHistory, LiveThresholds;
    match call.op
    case RegisterModule(key, identity, intent, _, _, a) =>
      RegisterModuleLeavesTables(st, key, identity, intent, a, config, s);
    case Detach(a, slot) => DetachLeavesTables(st, a, slot, config, s);
    case _ =>
      hide Body;
      if call.op.PublishThreshold? || call.op.PublishRule? || call.op.RetireRule? {
        OwnTableTouched(st, call, config, s);
      } else if call.op.Attach? || call.op.Transition? || call.op.Reconcile? {
        MovingBodiesLeaveTables(st, call, config, s);
      } else {
        OtherBodiesLeaveTables(st, call, config, s);
      }
  }

  // ----- Rules -----

  /** No id was ever used twice or given back: the ids are 1 to the counter, and there are no more than allowed. */
  ghost predicate RulesDense(st: State, config: Config) {
    && st.nextRuleId >= 1 && |st.rules| == st.nextRuleId - 1 <= config.maxRules
    && forall id :: id in st.rules <==> 1 <= id < st.nextRuleId
  }

  /** The id counter stays below 32 bits, so cutting it to 32 bits changes nothing. */
  ghost predicate RoomFor(st: State, calls: seq<Call>, config: Config) {
    RulesDense(st, config) || (Good(st) && st.nextRuleId + |calls| <= 0x1_0000_0000)
  }

  /** Every id given out so far lies below the counter. */
  ghost predicate IdsBelow(st: State) { forall id :: id in st.rules ==> id < st.nextRuleId }

  lemma PublishRuleDense(st: State, a: RegistryState.Authority, rule: Rule, config: Config, s: Stamp)
    requires RulesDense(st, config) && PublishRuleBody(st, a, rule, config, s).Ok?
    ensures RulesDense(PublishRuleBody(st, a, rule, config, s).value, config)
    ensures st.nextRuleId <= MAX_U32
  {
    hide Authorize;
    var next := PublishRuleBody(st, a, rule, config, s).value;
    assert st.nextRuleId % 0x1_0000_0000 == st.nextRuleId;
    OneMoreKey(st.rules, st.nextRuleId, next.rules[st.nextRuleId]);
  }

  lemma OneMoreKey(rules: map<nat, Rule>, id: nat, r: Rule)
    requires id !in rules
    ensures |rules[id := r]| == |rules| + 1
  {
    assert rules[id := r].Keys == rules.Keys + {id};
  }

  lemma RetireRuleDense(st: State, a: RegistryState.Authority, id: nat, config: Config, s: Stamp)
    requires RulesDense(st, config) && RetireRuleBody(st, a, id, s).Ok?
    ensures RulesDense(RetireRuleBody(st, a, id, s).value, config)
  {
    hide Authorize;
    assert RetireRuleBody(st, a, id, s).value.rules.Keys == st.rules.Keys;
  }

  lemma AttemptDense(st: State, call: Call, config: Config)
    requires RulesDense(st, config) && Attempt(st, call, config).Ok?
    ensures RulesDense(Attempt(st, call, config).value, config)
  {
    hide Attempt, PublishRuleBody, RetireRuleBody;
    CommitParts(st, call, config);
    var begun, s := st.(nextSequence := st.nextSequence + 1), StampOf(st, call);
    assert RulesDense(begun, config);
    if call.op.PublishRule? {
      PublishRuleDense(begun, call.op.authority, call.op.rule, config, s);
    } else if call.op.RetireRule? {
      RetireRuleDense(begun, call.op.authority, call.op.ruleId, config, s);
    } else {
      hide Body;
      TablesTouched(begun, call, config, s);
    }
  }

  /** From an empty registry on, the number of rules is exactly what the id counter says, within the limit. */
  lemma {:induction false} RulesAreCounted(st: State, calls: seq<Call>, config: Config)
    requires RulesDense(st, config)
    ensures RulesDense(RunCalls(st, calls, config), config)
  {
    hide RulesDense, Attempt;
    if calls != [] {
      var before := RunCalls(st, calls[..|calls| - 1], config);
      RulesAreCounted(st, calls[..|calls| - 1], config);
      if Attempt(before, calls[|calls| - 1], config).Ok? {
        AttemptDense(before, calls[|calls| - 1], config);
      }
    }
  }

  lemma EmptyIsDense(config: Config)
    ensures RulesDense(EMPTY_STATE, config)
  {
  }

  /** The rule itself, without id, provenance and liveness. */
  predicate SameContent(r: Rule, t: Rule) {
    && r.name == t.name && r.requirements == t.requirements && r.verdict == t.verdict && r.priority == t.priority
    && r.rationale == t.rationale && r.enabled == t.enabled
  }

  /** What happens to one stored rule: nothing, or it is retired. */
  ghost predicate RuleStep(before: map<nat, Rule>, after: map<nat, Rule>) {
    forall id :: id in before ==>
      && id in after && after[id].id == before[id].id && SameContent(after[id], before[id])
      && (after[id].live ==> after[id] == before[id])
  }

  lemma RuleStepTwice(a: map<nat, Rule>, b: map<nat, Rule>, c: map<nat, Rule>)
    requires RuleStep(a, b) && RuleStep(b, c)
    ensures RuleStep(a, c)
  {
  }

  lemma PublishRuleStep(st: State, a: RegistryState.Authority, rule: Rule, config: Config, s: Stamp)
    requires IdsBelow(st) && st.nextRuleId <= MAX_U32 && PublishRuleBody(st, a, rule, config, s).Ok?
    ensures RuleStep(st.rules, PublishRuleBody(st, a, rule, config, s).value.rules)
  {
    hide Authorize;
    assert st.nextRuleId % 0x1_0000_0000 == st.nextRuleId;
  }

  lemma RetireRuleStep(st: State, a: RegistryState.Authority, id: nat, s: Stamp)
    requires RetireRuleBody(st, a, id, s).Ok?
    ensures RuleStep(st.rules, RetireRuleBody(st, a, id, s).value.rules)
  {
    hide Authorize;
  }

  lemma RuleCounter(st: State, call: Call, config: Config, s: Stamp)
    requires Body(st, call, config, s).Ok?
    ensures Body(st, call, config, s).value.nextRuleId <= st.nextRuleId + 1
  {
    if call.op.PublishRule? || call.op.RetireRule? {
      hide Authorize;
    } else {
      hide Body;
      TablesTouched(st, call, config, s);
    }
  }

  lemma AttemptRuleStep(st: State, call: Call, config: Config)
    requires IdsBelow(st) && Attempt(st, call, config).Ok?
    requires call.op.PublishRule? ==> st.nextRuleId <= MAX_U32
    ensures RuleStep(st.rules, Attempt(st, call, config).value.rules)
    ensures Attempt(st, call, config).value.nextRuleId <= st.nextRuleId + 1
  {
    hide Attempt, PublishRuleBody, RetireRuleBody, RuleStep;
    CommitParts(st, call, config);
    var begun, s := st.(nextSequence := st.nextSequence + 1), StampOf(st, call);
    RuleCounter(begun, call, config, s);
    if call.op.PublishRule? {
      PublishRuleStep(begun, call.op.authority, call.op.rule, config, s);
    } else if call.op.RetireRule? {
      RetireRuleStep(begun, call.op.authority, call.op.ruleId, s);
    } else {
      hide Body;
      TablesTouched(begun, call, config, s);
      RuleStepSame(st.rules);
    }
  }

  lemma BelowInGood(st: State)
    requires Good(st)
    ensures IdsBelow(st)
  {
    hide SourcesOk, ModuleIndexOk, RecordsOk, PortsOk, AttachmentsOk, ThresholdsOk;
  }

  lemma RoomMeans(st: State, calls: seq<Call>, config: Config)
    requires RoomFor(st, calls, config)
    ensures IdsBelow(st)
  {
    hide Good;
    if !RulesDense(st, config) {
      BelowInGood(st);
    }
  }

  lemma {:induction false} RoomLasts(st: State, calls: seq<Call>, config: Config, call: Call)
    requires RoomFor(st, calls + [call], config)
    ensures var next := RunCalls(st, calls, config);
      && IdsBelow(next) && (Attempt(next, call, config).Ok? && call.op.PublishRule? ==> next.nextRuleId <= MAX_U32)
      && (!RulesDense(st, config) ==> next.nextRuleId <= st.nextRuleId + |calls|)
  {
    hide Good, Attempt, RulesDense;
    var next := RunCalls(st, calls, config);
    if RulesDense(st, config) {
      RulesAreCounted(st, calls, config);
      RoomMeans(next, [], config);
      if Attempt(next, call, config).Ok? && call.op.PublishRule? {
        CommitParts(next, call, config);
        DenseBegun(next, config);
        PublishRuleDense(next.(nextSequence := next.nextSequence + 1), call.op.authority, call.op.rule, config,
                         StampOf(next, call));
      }
    } else {
      RunKeepsInvariant(st, calls, config);
      BelowInGood(next);
      if calls != [] {
        var front, last := calls[..|calls| - 1], calls[|calls| - 1];
        var before := RunCalls(st, front, config);
        RoomLasts(st, front, config, last);
        if Attempt(before, last, config).Ok? {
          AttemptRuleStep(before, last, config);
        }
      }
    }
  }

  lemma DenseBegun(st: State, config: Config)
    requires RulesDense(st, config)
    ensures RulesDense(st.(nextSequence := st.nextSequence + 1), config)
  {
  }

  /** Rules never change except by retirement, never disappear, and a retired rule is live in no later state. */
  lemma {:induction false} RulesOnlyRetire(st: State, calls: seq<Call>, config: Config)
    requires RoomFor(st, calls, config)
    ensures RuleStep(st.rules, RunCalls(st, calls, config).rules)
  {
    hide Attempt, RuleStep, IdsBelow, Good, RulesDense;
    if calls == [] {
      RuleStepSame(st.rules);
    } else {
      var front, call := calls[..|calls| - 1], calls[|calls| - 1];
      assert front + [call] == calls;
      RulesOnlyRetire(st, front, config);
      RoomLasts(st, front, config, call);
      var before := RunCalls(st, front, config);
      if Attempt(before, call, config).Ok? {
        AttemptRuleStep(before, call, config);
        RuleStepTwice(st.rules, before.rules, Attempt(before, call, config).value.rules);
      }
    }
  }

  lemma RuleStepSame(rules: map<nat, Rule>)
    ensures RuleStep(rules, rules)
  {
  }

  /** A published rule is stored live under an id nothing used before; every older rule is untouched. */
  lemma PublishedRuleIsStored(st: State, call: Call, config: Config)
    requires call.op.PublishRule? && Attempt(st, call, config).Ok? && RoomFor(st, [call], config)
    ensures var next := Attempt(st, call, config).value;
      var id := st.nextRuleId;
      && id !in st.rules && id in next.rules && next.rules[id].live && next.rules[id].id == id
      && next.rules[id].source == call.op.authority.source && next.rules[id].epoch == call.op.authority.epoch
      && SameContent(next.rules[id], call.op.rule)
      && forall older :: older in st.rules ==> older in next.rules && next.rules[older] == st.rules[older]
  {
    hide Attempt, RoomFor, Authorize;
    assert [] + [call] == [call];
    RoomLasts(st, [], config, call);
    CommitParts(st, call, config);
    assert st.nextRuleId % 0x1_0000_0000 == st.nextRuleId;
  }

  /**
   * A committed retirement is final: the rule is still there, unchanged in content, and not live in any later state.
   */
  lemma RetiredRuleStaysRetired(st: State, call: Call, more: seq<Call>, config: Config)
    requires call.op.RetireRule? && Attempt(st, call, config).Ok?
    requires RoomFor(Attempt(st, call, config).value, more, config)
    ensures var id := call.op.ruleId;
      var later := RunCalls(Attempt(st, call, config).value, more, config);
      && id in st.rules && st.rules[id].live
      && id in later.rules && !later.rules[id].live && SameContent(later.rules[id], st.rules[id])
  {
    hide Attempt, RunCalls, RoomFor;
    CommitParts(st, call, config);
    RulesOnlyRetire(Attempt(st, call, config).value, more, config);
  }

  // ----- Threshold history -----

  lemma HistoryLast(front: seq<ThresholdRecord>, r: ThresholdRecord, u: Threshold)
    ensures HistoryOf(front + [r], u) == HistoryOf(front, u) + if SameSubject(r.threshold, u) then 1 else 0
    ensures HistoryOf([], u) == 0
  {
    assert (front + [r])[..|front|] == front;
  }

  lemma {:induction false} HistoryJoined(a: seq<ThresholdRecord>, b: seq<ThresholdRecord>, u: Threshold)
    ensures HistoryOf(a + b, u) == HistoryOf(a, u) + HistoryOf(b, u)
  {
    if b == [] {
      assert a + b == a;
    } else {
      HistoryJoined(a, b[..|b| - 1], u);
      assert (a + b)[..|a + b| - 1] == a + b[..|b| - 1];
    }
  }

  lemma HistoryErased(ts: seq<ThresholdRecord>, i: nat, u: Threshold)
    requires i < |ts|
    ensures HistoryOf(Erase(ts, i), u) == HistoryOf(ts, u) - if SameSubject(ts[i].threshold, u) then 1 else 0
  {
    hide HistoryOf;
    assert ts == ts[..i] + [ts[i]] + ts[i + 1..];
    HistoryJoined(ts[..i] + [ts[i]], ts[i + 1..], u);
    HistoryLast(ts[..i], ts[i], u);
    HistoryJoined(ts[..i], ts[i + 1..], u);
  }

  lemma {:induction false} HistoryRetired(ts: seq<ThresholdRecord>, t: Threshold, u: Threshold)
    ensures HistoryOf(Retire(ts, t), u) == HistoryOf(ts, u)
  {
    if ts != [] {
      HistoryRetired(ts[..|ts| - 1], t, u);
      assert Retire(ts, t)[..|ts| - 1] == Retire(ts[..|ts| - 1], t);
    }
  }

  /** A subject with any history has an entry. */
  lemma {:induction false} HistoryFound(ts: seq<ThresholdRecord>, u: Threshold) returns (i: nat)
    requires HistoryOf(ts, u) > 0
    ensures i < |ts| && SameSubject(ts[i].threshold, u)
  {
    i := |ts| - 1;
    if !SameSubject(ts[i].threshold, u) {
      i := HistoryFound(ts[..|ts| - 1], u);
    }
  }

  /** The list a publication hands to the history loop. */
  function WithPublished(ts: seq<ThresholdRecord>, t: Threshold, published: Threshold): seq<ThresholdRecord> {
    Retire(ts, t) + [ThresholdRecord(published, true)]
  }

  /**
   * One publication: the loop that should bound the history removes at most one entry, so an own history at or over the
   * limit keeps its length, a shorter one grows by one, and every other history is untouched.
   */
  lemma PublicationHistory(ts: seq<ThresholdRecord>, t: Threshold, published: Threshold, max: nat, u: Threshold)
    requires SameSubject(published, t)
    ensures HistoryOf(BoundHistory(WithPublished(ts, t, published), t, max), u) ==
            if !SameSubject(t, u) then HistoryOf(ts, u)
            else if HistoryOf(ts, u) >= max && HistoryOf(ts, u) > 0 then HistoryOf(ts, u)
            else HistoryOf(ts, u) + 1
  {
    hide HistoryOf;
    var all := WithPublished(ts, t, published);
    HistoryRetired(ts, t, u);
    HistoryRetired(ts, t, t);
    HistoryLast(Retire(ts, t), ThresholdRecord(published, true), u);
    HistoryLast(Retire(ts, t), ThresholdRecord(published, true), t);
    var i := FirstRetired(all, t);
    if i < |all| {
      HistoryErased(all, i, u);
    }
    if HistoryOf(ts, t) > 0 {
      var j := HistoryFound(Retire(ts, t), t);
      assert all[j] == Retire(ts, t)[j] && !all[j].live;
    } else if i < |all| - 1 {
      NoneWithoutHistory(Retire(ts, t), i, t);
    }
    if SameSubject(t, u) {
      SubjectHistory(ts, t, u);
    }
  }

  lemma {:induction false} NoneWithoutHistory(ts: seq<ThresholdRecord>, i: nat, u: Threshold)
    requires i < |ts| && SameSubject(ts[i].threshold, u)
    ensures HistoryOf(ts, u) > 0
  {
    if i < |ts| - 1 {
      NoneWithoutHistory(ts[..|ts| - 1], i, u);
    }
  }

  /** The bound the loop is there for holds after a publication exactly when it held before it. */
  lemma HistoryBoundExactly(ts: seq<ThresholdRecord>, t: Threshold, published: Threshold, max: nat)
    requires SameSubject(published, t) && max >= 1
    ensures HistoryOf(BoundHistory(WithPublished(ts, t, published), t, max), t) <= max <==> HistoryOf(ts, t) <= max
  {
    PublicationHistory(ts, t, published, max, t);
    hide HistoryOf, BoundHistory, WithPublished;
  }

  lemma AttemptHistory(st: State, call: Call, config: Config, u: Threshold)
    requires Attempt(st, call, config).Ok?
    ensures var before, after := HistoryOf(st.thresholds, u), HistoryOf(Attempt(st, call, config).value.thresholds, u);
      before <= after && (after <= before || after <= config.maxClaimHistory || after == 1)
  {
    hide Attempt, HistoryOf, BoundHistory, Retire, LiveThresholds, Authorize;
    CommitParts(st, call, config);
    var begun, s := st.(nextSequence := st.nextSequence + 1), StampOf(st, call);
    if call.op.PublishThreshold? {
      var t, a := call.op.threshold, call.op.authority;
      var published := t.(source := a.source, epoch := a.epoch, generation := s.generation, sequence := s.sequence,
                          live := true);
      PublicationHistory(st.thresholds, t, published, config.maxClaimHistory, u);
    } else {
      hide Body;
      TablesTouched(begun, call, config, s);
    }
  }

  /**
   * Over a run from any state a history is within the limit at the end exactly when it was at the start: it never grows
   * past the limit, and one that a load brought in longer never gets shorter.
   */
  lemma {:induction false} HistoryOverRuns(st: State, calls: seq<Call>, config: Config, u: Threshold)
    requires config.maxClaimHistory >= 1
    ensures HistoryOf(RunCalls(st, calls, config).thresholds, u) >= HistoryOf(st.thresholds, u)
    ensures HistoryOf(RunCalls(st, calls, config).thresholds, u) <= config.maxClaimHistory <==>
            HistoryOf(st.thresholds, u) <= config.maxClaimHistory
  {
    hide Attempt, HistoryOf;
    if calls != [] {
      var front, call := calls[..|calls| - 1], calls[|calls| - 1];
      HistoryOverRuns(st, front, config, u);
      if Attempt(RunCalls(st, front, config), call, config).Ok? {
        AttemptHistory(RunCalls(st, front, config), call, config, u);
      }
    }
  }
}
