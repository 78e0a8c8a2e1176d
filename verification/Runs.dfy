/** Whole runs: any sequence of calls, in any interleaving the lock allows. */
module Runs {
  import opened Bytes
  import opened Ordering
  import A = Authority
  import opened Consensus
  import opened Capability
  import opened Compatibility
  import opened Lifecycle
  import opened Latch
  import opened Trim
  import opened RegistryState
  import opened Validation
  import opened Mutations
  import opened RegistryInvariant
  import opened InvariantSteps
  import opened InvariantRegistration

  /** The invariant, with the state's own sequence counter as the bound. */
  ghost predicate Good(st: State) { Inv(st, st.nextSequence) }

  lemma EmptyIsGood()
    ensures Good(EMPTY_STATE)
  {
  }

  lemma InvIgnoresCounters(st: State, next: State, n: nat)
    requires Inv(st, n)
    requires next == st.(generation := next.generation, nextSequence := next.nextSequence, mutations := next.mutations,
                         registryIncarnation := next.registryIncarnation)
    ensures Inv(next, n)
  {
    hide SourcesOk, RecordsOk, PortsOk, AttachmentsOk, ThresholdsOk, RulesOk, ModuleIndexOk;
  }

  /** A commit: one generation, one mutation, one sequence number, never more. */
  lemma CommitAdvances(st: State, call: Call, config: Config)
    requires Attempt(st, call, config).Ok?
    ensures var next := Attempt(st, call, config).value;
      && next.generation == st.generation + 1 && next.mutations == st.mutations + 1
      && next.nextSequence == st.nextSequence + 1 && next.registryIncarnation == st.registryIncarnation
  {
    hide Body, CheckCall;
  }

  /** The parts of a commit, for reasoning about its body. */
  lemma CommitParts(st: State, call: Call, config: Config)
    requires Attempt(st, call, config).Ok?
    ensures CheckCall(call.op, config, call.clock.wallNs).Ok? && !StaleCall(st, call)
    ensures var begun := st.(nextSequence := st.nextSequence + 1);
      var body := Body(begun, call, config, StampOf(st, call));
      && body.Ok?
      && Attempt(st, call, config) == Ok(body.value.(generation := st.generation + 1, mutations := st.mutations + 1))
  {
    hide Body, CheckCall;
  }

  lemma AttemptKeeps(st: State, call: Call, config: Config)
    requires Good(st)
    ensures Good(After(st, call, config))
  {
    hide Inv, Body, CheckCall, Attempt;
    if Attempt(st, call, config).Ok? {
      CommitParts(st, call, config);
      CommitAdvances(st, call, config);
      var begun := st.(nextSequence := st.nextSequence + 1);
      InvIgnoresCounters(st, begun, st.nextSequence);
      BodyKeeps(begun, call, config, StampOf(st, call));
      InvIgnoresCounters(Body(begun, call, config, StampOf(st, call)).value, After(st, call, config),
                         st.nextSequence + 1);
    }
  }

  /** Every state a run reaches satisfies the invariant. */
  lemma {:induction false} RunKeepsInvariant(st: State, calls: seq<Call>, config: Config)
    requires Good(st)
    ensures Good(RunCalls(st, calls, config))
  {
    hide After, Good;
    if calls != [] {
      RunKeepsInvariant(st, calls[..|calls| - 1], config);
      AttemptKeeps(RunCalls(st, calls[..|calls| - 1], config), calls[|calls| - 1], config);
    }
  }

  // ----- Fenced publication -----

  ghost predicate Commits(st: State, calls: seq<Call>, config: Config, i: nat)
    requires i < |calls|
  {
    Attempt(RunCalls(st, calls[..i], config), calls[i], config).Ok?
  }

  ghost function CommitCount(st: State, calls: seq<Call>, config: Config): nat {
    if calls == [] then 0
    else CommitCount(st, calls[..|calls| - 1], config) + if Commits(st, calls, config, |calls| - 1) then 1 else 0
  }

  /** The generation counts commits: it advances by one for each and by nothing for a refusal. */
  lemma {:induction false} GenerationCountsCommits(st: State, calls: seq<Call>, config: Config)
    ensures RunCalls(st, calls, config).generation == st.generation + CommitCount(st, calls, config)
    ensures RunCalls(st, calls, config).mutations == st.mutations + CommitCount(st, calls, config)
    ensures RunCalls(st, calls, config).nextSequence == st.nextSequence + CommitCount(st, calls, config)
  {
    hide Attempt;
    if calls != [] {
      var front := calls[..|calls| - 1];
      GenerationCountsCommits(st, front, config);
      if Commits(st, calls, config, |calls| - 1) {
        CommitAdvances(RunCalls(st, front, config), calls[|calls| - 1], config);
      }
    }
  }

  lemma {:induction false} CountGrows(st: State, calls: seq<Call>, config: Config, i: nat, j: nat)
    requires i <= j <= |calls|
    ensures CommitCount(st, calls[..i], config) <= CommitCount(st, calls[..j], config)
    ensures forall k :: i <= k < j && Commits(st, calls, config, k) ==>
              CommitCount(st, calls[..i], config) < CommitCount(st, calls[..j], config)
  {
    hide Attempt, RunCalls;
    if i < j {
      CountGrows(st, calls, config, i, j - 1);
      assert calls[..j][..j - 1] == calls[..j - 1];
      assert Commits(st, calls[..j], config, j - 1) == Commits(st, calls, config, j - 1);
    }
  }

  /** A call commits only at the generation it is fenced on. */
  lemma FencedCommit(st: State, call: Call, config: Config)
    requires Attempt(st, call, config).Ok? && call.requireGeneration && ExpectedGeneration(call.op) != 0
    ensures st.generation == ExpectedGeneration(call.op)
  {
    hide Body, CheckCall;
  }

  /** Of all the calls fenced on one valid generation at most one ever commits. */
  lemma OneWinner(st: State, calls: seq<Call>, config: Config, i: nat, j: nat)
    requires i < j < |calls| && calls[i].requireGeneration && calls[j].requireGeneration
    requires ExpectedGeneration(calls[i].op) == ExpectedGeneration(calls[j].op) != 0
    ensures !(Commits(st, calls, config, i) && Commits(st, calls, config, j))
  {
    hide Attempt, RunCalls;
    if Commits(st, calls, config, i) && Commits(st, calls, config, j) {
      FencedCommit(RunCalls(st, calls[..i], config), calls[i], config);
      FencedCommit(RunCalls(st, calls[..j], config), calls[j], config);
      GenerationCountsCommits(st, calls[..i], config);
      GenerationCountsCommits(st, calls[..j], config);
      CountGrows(st, calls, config, i, j);
    }
  }

  /** A call fenced with a handle minted after i calls commits only if nothing committed since. */
  lemma HandleIsCurrent(st: State, calls: seq<Call>, config: Config, i: nat, j: nat)
    requires i <= j < |calls| && calls[j].requireGeneration && Commits(st, calls, config, j)
    requires ExpectedGeneration(calls[j].op) == RunCalls(st, calls[..i], config).generation != 0
    ensures forall k :: i <= k < j ==> !Commits(st, calls, config, k)
  {
    hide Attempt, RunCalls;
    FencedCommit(RunCalls(st, calls[..j], config), calls[j], config);
    GenerationCountsCommits(st, calls[..i], config);
    GenerationCountsCommits(st, calls[..j], config);
    CountGrows(st, calls, config, i, j);
  }

  lemma {:induction false} ShrinkError<V>(kind: ClaimKind, s: seq<Claim<V>>, maxTotal: nat)
    ensures Shrink(kind, s, maxTotal).Err? ==> Shrink(kind, s, maxTotal) == Err(CapacityExceeded)
    decreases |s|
  {
    hide FirstSuperseded;
    if |s| > maxTotal && FirstSuperseded(kind, s, 0) < |s| {
      ShrinkError(kind, Erase(s, FirstSuperseded(kind, s, 0)), maxTotal);
    }
  }

  lemma RegisterModuleIsNotStale(st: State, key: Text, identity: seq<IdentityValue>, intent: Intent,
                                 a: RegistryState.Authority, config: Config, s: Stamp)
    ensures RegisterModuleBody(st, key, identity, intent, a, config, s) != Err(StaleGeneration)
  {
    hide Shrink, KeepRecent, EnsureRegistered, Logged, DetachAll, NewModule, IdentityClaims;
    if Authorize(st, a).Ok? && OpenModule(st, key, intent, a, config, s).Ok? {
      var found := OpenModule(st, key, intent, a, config, s).value;
      if found.uid in found.st.modules {
        var record := EnsureRegistered(found.st.modules[found.uid], a, s);
        ShrinkError(OfIdentity, record.claims + IdentityClaims(identity, a, record.uid, record.incarnation, s),
                    config.maxClaimsPerModule);
      }
    }
  }

  lemma PublicationIsNotStale(st: State, a: RegistryState.Authority, h: Handle, v: IdentityValue, port: Text, key: nat,
                              subkey: Text, value: CapabilityValue, config: Config, s: Stamp)
    ensures UpdateIdentityBody(st, a, h, v, config, s) != Err(StaleGeneration)
    ensures PublishCapabilityBody(st, a, h, key, subkey, value, config, s) != Err(StaleGeneration)
    ensures PublishPortCapabilityBody(st, a, port, key, subkey, value, config, s) != Err(StaleGeneration)
  {
    hide Shrink, KeepRecent;
    if h.uid in st.modules {
      var r := st.modules[h.uid];
      ShrinkError(OfIdentity, r.claims + [NewClaim(v.attr, v.subkey, v.value, a, r.uid, r.incarnation, [], s)],
                  config.maxClaimsPerModule);
      ShrinkError(OfModule, r.declarations + [NewClaim(key, subkey, value, a, r.uid, r.incarnation, [], s)],
                  config.maxDeclarationsPerModule);
    }
    var declarations := if port in st.ports then st.ports[port].declarations else [];
    var max, d := config.maxDeclarationsPerPort, NewClaim(key, subkey, value, a, 0, 0, port, s);
    ShrinkError(OfPort, declarations, OneBelow(max));
    ShrinkError(OfPort, declarations + [d], max);
    if Shrink(OfPort, declarations, OneBelow(max)).Ok? {
      ShrinkError(OfPort, Shrink(OfPort, declarations, OneBelow(max)).value + [d], max);
    }
  }

  lemma AttachIsNotStale(st: State, a: RegistryState.Authority, h: Handle, slot: Text, portIndex: nat, config: Config,
                         s: Stamp)
    ensures AttachBody(st, a, h, slot, portIndex, config, s) != Err(StaleGeneration)
  {
    hide Advanced, Capped, LiveSlots, HeldBy, TransitionAllowed;
  }

  lemma DetachIsNotStale(st: State, a: RegistryState.Authority, slot: Text, config: Config, s: Stamp)
    ensures DetachBody(st, a, slot, config, s) != Err(StaleGeneration)
  {
    hide Advanced, Capped, TransitionAllowed;
  }

  lemma MoveIsNotStale(st: State, a: RegistryState.Authority, h: Handle, to: LifecycleState, config: Config,
                       clock: Clock, s: Stamp)
    ensures TransitionBody(st, a, h, to, config, s) != Err(StaleGeneration)
    ensures ReconcileBody(st, a, h, config, clock, s) != Err(StaleGeneration)
  {
    hide Advanced, Capped, ReconcileTarget, EvidenceOf, TransitionAllowed;
  }

  lemma IngestIsNotStale(st: State, a: RegistryState.Authority, h: Handle, input: SampleInput, config: Config,
                         clock: Clock, s: Stamp)
    ensures IngestBody(st, a, h, input, config, clock, s) != Err(StaleGeneration)
  {
    hide LiveThresholds, Replayed, StoredSample, Latched, Pushed;
  }

  lemma PublishThresholdIsNotStale(st: State, a: RegistryState.Authority, t: Threshold, config: Config, s: Stamp)
    ensures PublishThresholdBody(st, a, t, config, s) != Err(StaleGeneration)
  {
    hide Retire, BoundHistory, LiveThresholds;
  }

  lemma PublishRuleIsNotStale(st: State, a: RegistryState.Authority, rule: Rule, config: Config, s: Stamp)
    ensures PublishRuleBody(st, a, rule, config, s) != Err(StaleGeneration)
  {
  }

  lemma RetireRuleIsNotStale(st: State, a: RegistryState.Authority, id: nat, s: Stamp)
    ensures RetireRuleBody(st, a, id, s) != Err(StaleGeneration)
  {
  }

  lemma RegisterSourceIsNotStale(st: State, name: Text, instanceId: Text, description: Text, config: Config, s: Stamp)
    ensures RegisterSourceBody(st, name, instanceId, description, config, s) != Err(StaleGeneration)
  {
  }

  lemma BodyIsNotStale(st: State, call: Call, config: Config, s: Stamp)
    ensures Body(st, call, config, s) != Err(StaleGeneration)
  {
    hide RegisterSourceBody, RegisterModuleBody, UpdateIdentityBody, PublishCapabilityBody, PublishPortCapabilityBody,
         AttachBody, DetachBody, IngestBody, PublishThresholdBody, PublishRuleBody, RetireRuleBody, TransitionBody,
         ReconcileBody, LeavesCounters, LeavesSources;
    var value, handle := IdentityValue(0, [], []), Handle(0, 0, 0);
    match call.op
    case RegisterSource(name, instanceId, description) =>
      RegisterSourceIsNotStale(st, name, instanceId, description, config, s);
    case RegisterModule(key, identity, intent, _, _, a) =>
      RegisterModuleIsNotStale(st, key, identity, intent, a, config, s);
    case UpdateIdentity(a, h, v, _) => PublicationIsNotStale(st, a, h, v, [], 0, [], NoValue, config, s);
    case PublishCapability(a, h, key, subkey, content, _, _) =>
      PublicationIsNotStale(st, a, h, value, [], key, subkey, content, config, s);
    case PublishPortCapability(a, port, key, subkey, content, _, _) =>
      PublicationIsNotStale(st, a, handle, value, port, key, subkey, content, config, s);
    case Attach(a, h, slot, portIndex) => AttachIsNotStale(st, a, h, slot, portIndex, config, s);
    case Detach(a, slot) => DetachIsNotStale(st, a, slot, config, s);
    case Transition(a, h, to, _) => MoveIsNotStale(st, a, h, to, config, call.clock, s);
    case Reconcile(a, h) => MoveIsNotStale(st, a, h, Active, config, call.clock, s);
    case IngestHealth(a, h, input) => IngestIsNotStale(st, a, h, input, config, call.clock, s);
    case PublishThreshold(a, t) => PublishThresholdIsNotStale(st, a, t, config, s);
    case PublishRule(a, rule, _) => PublishRuleIsNotStale(st, a, rule, config, s);
    case RetireRule(a, id) => RetireRuleIsNotStale(st, a, id, s);
  }

  /** The mutation path reports a stale generation for the fence and for nothing else. */
  lemma FencedExactly(st: State, call: Call, config: Config)
    ensures Mutated(st, call, config) == Err(StaleGeneration) <==> StaleCall(st, call)
  {
    hide Body;
    BodyIsNotStale(st.(nextSequence := st.nextSequence + 1), call, config, StampOf(st, call));
  }

  /** A refusal, for whatever reason, changes nothing. */
  lemma RefusalChangesNothing(st: State, calls: seq<Call>, config: Config)
    requires calls != [] && !Commits(st, calls, config, |calls| - 1)
    ensures RunCalls(st, calls, config) == RunCalls(st, calls[..|calls| - 1], config)
  {
    hide Attempt;
  }
}
