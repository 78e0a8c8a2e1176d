/** Who is turned away and with what answer, and how long that lasts: src/registry.cpp:165-203, 454-520. */
module Refusals {
  import opened Bytes
  import opened Ordering
  import A = Authority
  import opened Consensus
  import opened Capability
  import opened Lifecycle
  import opened HealthReport
  import opened Trim
  import opened Samples
  import opened RegistryState
  import opened Validation
  import opened Mutations
  import opened RegistryInvariant
  import opened InvariantSteps
  import opened Runs
  import opened Resurrection

  /** The module a call is about, when it carries a handle. */
  function TargetOf(op: RegistryState.Op): Option<Handle> {
    match op
    case UpdateIdentity(_, h, _, _) => Some(h)
    case PublishCapability(_, h, _, _, _, _, _) => Some(h)
    case Attach(_, h, _, _) => Some(h)
    case IngestHealth(_, h, _) => Some(h)
    case Transition(_, h, _, _) => Some(h)
    case Reconcile(_, h) => Some(h)
    case _ => None
  }

  /** What the call is answered before its body looks at anything else, if it is turned away there. */
  function DoorAnswer(st: State, a: RegistryState.Authority, target: Option<Handle>): Result<()> {
    if a.source == 0 then Err(InvalidArgument)
    else if a.source !in st.sources || st.sources[a.source].epoch != a.epoch then Err(StaleAuthority)
    else if target.None? then Ok(())
    else if target.value.uid !in st.modules then Err(NotFound)
    else if st.modules[target.value.uid].incarnation != target.value.incarnation then Err(Fenced)
    else Ok(())
  }

  lemma BodyDoor(st: State, call: Call, config: Config, s: Stamp, a: RegistryState.Authority)
    requires AuthorityOf(call.op) == Some(a)
    ensures var door := DoorAnswer(st, a, TargetOf(call.op));
      door.Err? ==> Body(st, call, config, s) == Err(door.code)
  {
    DoorIsModuleAt(st, call, a);
    hide ModuleAt, Authorize, TrimList, OpenModule, Shrink, TrimRing, ReportOf, Advanced, EnsureRegistered, TrimClaims,
         Retire, BoundHistory, LiveThresholds, Replayed, StoredSample, Latched, RegisterSourceBody, DoorAnswer, HeldBy,
         TransitionAllowed, Capped, EvidenceOf, PublishOnPort;
  }

  lemma DoorIsModuleAt(st: State, call: Call, a: RegistryState.Authority)
    ensures var door := DoorAnswer(st, a, TargetOf(call.op)); var h := TargetOf(call.op);
      && (h.None? ==> Authorize(st, a) == door)
      && (h.Some? ==> if door.Err? then ModuleAt(st, a, h.value) == Err(door.code) else ModuleAt(st, a, h.value).Ok?)
  {
    hide TargetOf;
  }

  /**
   * A call that passes its argument checks is answered, in this order: stale generation for its fence, invalid argument
   * for no source, stale authority for an epoch that is not the source's, not found for an unknown module, fenced for
   * an incarnation that is not the module's.
   */
  lemma TurnedAway(st: State, call: Call, config: Config, a: RegistryState.Authority)
    requires AuthorityOf(call.op) == Some(a) && CheckCall(call.op, config, call.clock.wallNs).Ok?
    ensures StaleCall(st, call) ==> Attempt(st, call, config) == Err(StaleGeneration)
    ensures var door := DoorAnswer(st, a, TargetOf(call.op));
      !StaleCall(st, call) && door.Err? ==> Attempt(st, call, config) == Err(door.code)
  {
    hide Body, CheckCall, DoorAnswer;
    var begun := st.(nextSequence := st.nextSequence + 1);
    SameDoor(st, begun, a, TargetOf(call.op));
    BodyDoor(begun, call, config, StampOf(st, call), a);
  }

  lemma SameDoor(st: State, begun: State, a: RegistryState.Authority, target: Option<Handle>)
    requires begun.sources == st.sources && begun.modules == st.modules
    ensures DoorAnswer(begun, a, target) == DoorAnswer(st, a, target)
  {
  }

  /** The generation a call names: its handle's, or the one a registration gives; 0 names none. */
  function NamedGeneration(op: RegistryState.Op): nat {
    if TargetOf(op).Some? then TargetOf(op).value.generation
    else if op.RegisterModule? then op.expected
    else 0
  }

  /** A call is stale exactly when it asks to be fenced and names a generation that is not the registry's. */
  lemma StaleExactly(st: State, call: Call)
    ensures StaleCall(st, call) <==>
            call.requireGeneration && NamedGeneration(call.op) !in {0, st.generation}
  {
  }

  // ----- What a body refuses -----

  /** The call passes its checks, its fence and the door. */
  predicate LetIn(st: State, call: Call, config: Config) {
    && CheckCall(call.op, config, call.clock.wallNs).Ok? && !StaleCall(st, call)
    && (AuthorityOf(call.op).Some? ==> DoorAnswer(st, AuthorityOf(call.op).value, TargetOf(call.op)).Ok?)
  }

  lemma ThroughTheDoor(st: State, call: Call, config: Config)
    requires LetIn(st, call, config)
    ensures var body := Body(st.(nextSequence := st.nextSequence + 1), call, config, StampOf(st, call));
      Attempt(st, call, config) ==
      match body
      case Ok(next) => Ok(next.(generation := st.generation + 1, mutations := st.mutations + 1))
      case Err(code) => Err(code)
  {
    hide Body, CheckCall, StaleCall, DoorAnswer;
  }

  /**
   * A move is refused exactly when the table has no such edge, and a retirement when there is no live rule to retire.
   */
  lemma MovesRefused(st: State, call: Call, config: Config)
    requires LetIn(st, call, config) && (call.op.Transition? || call.op.RetireRule? || call.op.Detach?)
    ensures var answer := Attempt(st, call, config);
      match call.op
      case Transition(_, h, to, _) =>
        && h.uid in st.modules
        && (answer.Err? <==> !TransitionAllowed(st.modules[h.uid].state, to))
        && (answer.Err? ==> answer == Err(InvalidTransition))
      case RetireRule(_, id) =>
        && (answer == Err(NotFound) <==> id !in st.rules)
        && (answer == Err(Conflict) <==> id in st.rules && !st.rules[id].live)
        && (answer.Ok? <==> id in st.rules && st.rules[id].live)
      case Detach(_, slot) => answer == Err(NotFound) <==> slot !in st.attachments || !st.attachments[slot].live
      case _ => true
  {
    ThroughTheDoor(st, call, config);
    DoorIsModuleAt(st.(nextSequence := st.nextSequence + 1), call, AuthorityOf(call.op).value);
    SameDoor(st, st.(nextSequence := st.nextSequence + 1), AuthorityOf(call.op).value, TargetOf(call.op));
    hide Attempt, CheckCall, StaleCall, DoorAnswer, ModuleAt, Authorize, Advanced, Capped, TransitionAllowed,
         RegisterSourceBody, RegisterModuleBody, UpdateIdentityBody, PublishCapabilityBody, PublishPortCapabilityBody,
         AttachBody, IngestBody, PublishThresholdBody, PublishRuleBody, ReconcileBody;
    hide ImpliesAttachment;
    if call.op.Transition? {
      ReachedAt(st, call);
    }
  }

  lemma ReachedAt(st: State, call: Call)
    requires AuthorityOf(call.op).Some? && TargetOf(call.op).Some?
    requires DoorAnswer(st, AuthorityOf(call.op).value, TargetOf(call.op)).Ok?
    ensures var h := TargetOf(call.op).value;
      && h.uid in st.modules
      && ModuleAt(st.(nextSequence := st.nextSequence + 1), AuthorityOf(call.op).value, h) == Ok(st.modules[h.uid])
  {
  }

  /** A new source needs room in the table and in the ids, a known one that reconnects room for another epoch. */
  lemma SourcesRefused(st: State, call: Call, config: Config)
    requires Good(st) && LetIn(st, call, config) && call.op.RegisterSource?
    ensures var answer, name := Attempt(st, call, config), call.op.name;
      && (answer.Err? ==> answer == Err(CapacityExceeded))
      && (name !in st.sourceIdByName ==>
            (answer.Err? <==> |st.sources| >= config.maxSources || st.nextSourceId >= 0xFFFF_FFFF))
      && (name in st.sourceIdByName ==>
            && st.sourceIdByName[name] in st.sources
            && var r := st.sources[st.sourceIdByName[name]];
               answer.Err? <==> r.epoch == 0xFFFF_FFFF
                                && (call.op.instanceId == [] || call.op.instanceId != r.instanceId))
  {
    ThroughTheDoor(st, call, config);
    hide Attempt, CheckCall, StaleCall, Inv, RegisterModuleBody, UpdateIdentityBody, PublishCapabilityBody,
         PublishPortCapabilityBody, AttachBody, DetachBody, IngestBody, PublishThresholdBody, PublishRuleBody,
         RetireRuleBody, TransitionBody, ReconcileBody;
    if call.op.name in st.sourceIdByName {
      SourceFound(st, call.op.name, st.nextSequence);
    }
  }

  /** Tables that are full refuse: rules, ports, and thresholds counted without the ones the new one retires. */
  lemma TablesRefused(st: State, call: Call, config: Config)
    requires LetIn(st, call, config) && (call.op.PublishRule? || call.op.PublishThreshold?)
    ensures var answer := Attempt(st, call, config);
      && (answer.Err? ==> answer == Err(CapacityExceeded))
      && (call.op.PublishRule? ==> (answer.Err? <==> |st.rules| >= config.maxRules))
      && (call.op.PublishThreshold? ==>
            (answer.Err? <==> |LiveThresholds(Retire(st.thresholds, call.op.threshold))| >= config.maxThresholds))
  {
    ThroughTheDoor(st, call, config);
    DoorIsModuleAt(st.(nextSequence := st.nextSequence + 1), call, AuthorityOf(call.op).value);
    SameDoor(st, st.(nextSequence := st.nextSequence + 1), AuthorityOf(call.op).value, TargetOf(call.op));
    hide Attempt, CheckCall, StaleCall, DoorAnswer, Authorize, LiveThresholds, Retire, BoundHistory, ModuleAt,
         RegisterSourceBody, RegisterModuleBody, UpdateIdentityBody, PublishCapabilityBody, PublishPortCapabilityBody,
         AttachBody, DetachBody, IngestBody, RetireRuleBody, TransitionBody, ReconcileBody;
  }

  /**
   * An attach to the slot the module is in is always answered; any other needs a module that is attached or may be, and
   * a new slot needs room among the live ones.
   */
  lemma AttachRefused(st: State, call: Call, config: Config)
    requires Good(st) && LetIn(st, call, config) && call.op.Attach?
    ensures call.op.target.uid in st.modules
    ensures var answer, slot, h := Attempt(st, call, config), call.op.slot, call.op.target;
      var there := slot in st.attachments && st.attachments[slot].live && st.attachments[slot].uid == h.uid
                   && st.attachments[slot].incarnation == h.incarnation;
      var state := st.modules[h.uid].state;
      var legal := state == Attached || TransitionAllowed(state, Attached);
      && (answer == Err(InvalidTransition) <==> !there && !legal)
      && (answer == Err(CapacityExceeded) <==>
          !there && legal && slot !in st.attachments && |LiveSlots(st.attachments)| >= config.maxAttachments)
      && (answer.Err? ==> answer == Err(InvalidTransition) || answer == Err(CapacityExceeded))
  {
    ThroughTheDoor(st, call, config);
    AttachedHere(st, call);
    var begun, op := st.(nextSequence := st.nextSequence + 1), call.op;
    hide Attempt, CheckCall, StaleCall, DoorAnswer, Authorize, ModuleAt, LiveSlots, TransitionAllowed, Inv, StampOf,
         RegisterSourceBody, RegisterModuleBody, UpdateIdentityBody, PublishCapabilityBody, PublishPortCapabilityBody,
         AttachBody, DetachBody, IngestBody, PublishThresholdBody, PublishRuleBody, RetireRuleBody, TransitionBody,
         ReconcileBody;
    AttachInBody(begun, op.authority, op.target, op.slot, op.portIndex, config, StampOf(st, call),
                 st.modules[op.target.uid]);
  }

  lemma AttachInBody(st: State, a: RegistryState.Authority, h: Handle, slot: Text, portIndex: nat, config: Config,
                     s: Stamp, r: ModuleRecord)
    requires ModuleAt(st, a, h) == Ok(r) && r.uid == h.uid && r.incarnation == h.incarnation
    ensures var answer := AttachBody(st, a, h, slot, portIndex, config, s);
      var there := slot in st.attachments && st.attachments[slot].live && st.attachments[slot].uid == h.uid
                   && st.attachments[slot].incarnation == h.incarnation;
      var legal := r.state == Attached || TransitionAllowed(r.state, Attached);
      && (answer == Err(InvalidTransition) <==> !there && !legal)
      && (answer == Err(CapacityExceeded) <==>
          !there && legal && slot !in st.attachments && |LiveSlots(st.attachments)| >= config.maxAttachments)
      && (answer.Err? ==> answer == Err(InvalidTransition) || answer == Err(CapacityExceeded))
  {
    hide ModuleAt, Advanced, Capped, LiveSlots, TransitionAllowed;
  }

  lemma AttachedHere(st: State, call: Call)
    requires Good(st) && call.op.Attach?
    requires DoorAnswer(st, AuthorityOf(call.op).value, TargetOf(call.op)).Ok?
    ensures var h := call.op.target;
      && h.uid in st.modules && st.modules[h.uid].uid == h.uid && st.modules[h.uid].incarnation == h.incarnation
      && ModuleAt(st.(nextSequence := st.nextSequence + 1), call.op.authority, h) == Ok(st.modules[h.uid])
  {
    ReachedAt(st, call);
    RecordAt(st, call.op.target.uid, st.nextSequence);
    hide Inv;
    OwnLists(st.modules[call.op.target.uid], call.op.target.uid, Epochs(st.sources), st.nextSequence);
  }

  /** A registration under a known key that asks for the current incarnation is refused exactly when it is gone. */
  lemma GoneIsRefused(st: State, call: Call, config: Config)
    requires Good(st) && LetIn(st, call, config) && call.op.RegisterModule?
    ensures var answer, key := Attempt(st, call, config), call.op.key;
      && (key !in st.moduleUidByKey && |st.modules| >= config.maxModules ==> answer == Err(CapacityExceeded))
      && (key in st.moduleUidByKey ==>
            && st.moduleUidByKey[key] in st.modules
            && var r := st.modules[st.moduleUidByKey[key]];
               && (answer == Err(StaleIncarnation) <==>
                   call.op.intent == EnsureCurrent && (r.state == Replaced || r.state == Retired))
               && (call.op.intent == NewIncarnation && r.incarnation == 0xFFFF_FFFF ==>
                     answer == Err(CapacityExceeded)))
  {
    ThroughTheDoor(st, call, config);
    var begun, op := st.(nextSequence := st.nextSequence + 1), call.op;
    DoorIsModuleAt(begun, call, op.authority);
    SameDoor(st, begun, op.authority, TargetOf(op));
    if op.key in st.moduleUidByKey {
      KnownKey(st, op.key);
    }
    hide Attempt, CheckCall, StaleCall, DoorAnswer, Authorize, ModuleAt, Inv, StampOf, RegisterSourceBody,
         RegisterModuleBody, UpdateIdentityBody, PublishCapabilityBody, PublishPortCapabilityBody, AttachBody,
         DetachBody, IngestBody, PublishThresholdBody, PublishRuleBody, RetireRuleBody, TransitionBody, ReconcileBody;
    GoneInBody(begun, op.key, op.identity, op.intent, op.authority, config, StampOf(st, call));
  }

  lemma GoneInBody(st: State, key: Text, identity: seq<IdentityValue>, intent: Intent, a: RegistryState.Authority,
                   config: Config, s: Stamp)
    requires Authorize(st, a).Ok? && (key in st.moduleUidByKey ==> st.moduleUidByKey[key] in st.modules)
    ensures var answer := RegisterModuleBody(st, key, identity, intent, a, config, s);
      && (key !in st.moduleUidByKey && |st.modules| >= config.maxModules ==> answer == Err(CapacityExceeded))
      && (key in st.moduleUidByKey ==>
            var r := st.modules[st.moduleUidByKey[key]];
            && (answer == Err(StaleIncarnation) <==>
                intent == EnsureCurrent && (r.state == Replaced || r.state == Retired))
            && (intent == NewIncarnation && r.incarnation == 0xFFFF_FFFF ==> answer == Err(CapacityExceeded)))
  {
    ShrinkCodes(OfIdentity);
    hide Authorize, IdentityClaims, Capped, EnsureRegistered, Shrink, NewModule, DetachAll, KeepRecent, EventOf;
  }

  /**
   * A revision never needs room: a statement is refused exactly when too many entries besides the revised ones remain.
   */
  lemma UpdateBudget(st: State, call: Call, config: Config, all: seq<IdentityClaim>)
    requires Good(st) && LetIn(st, call, config) && call.op.UpdateIdentity? && call.op.target.uid in st.modules
    requires var op := call.op;
      all == st.modules[op.target.uid].claims
             + [Claim(op.value.attr, op.value.subkey, op.value.value, op.authority.source, op.authority.epoch,
                      op.target.uid, op.target.incarnation, [], st.generation + 1, st.nextSequence, call.clock.wallNs,
                      op.provenance, true)]
    ensures var answer := Attempt(st, call, config);
      && (answer.Err? <==> |Filter(all, Standing(OfIdentity, all))| > config.maxClaimsPerModule)
      && (answer.Err? ==> answer == Err(CapacityExceeded))
  {
    OwnRecord(st, call);
    NewEntries(st, call);
    UpdateAnswer(st, call, config);
    hide *;
    TrimRefused(OfIdentity, all, config.maxClaimsPerModule, config.maxClaimHistory);
  }

  lemma PublishBudget(st: State, call: Call, config: Config, all: seq<Declaration>)
    requires Good(st) && LetIn(st, call, config) && call.op.PublishCapability? && call.op.target.uid in st.modules
    requires var op := call.op;
      all == st.modules[op.target.uid].declarations
             + [Claim(op.capability, op.subkey, op.content, op.authority.source, op.authority.epoch, op.target.uid,
                      op.target.incarnation, [], st.generation + 1, st.nextSequence, call.clock.wallNs, op.provenance,
                      true)]
    ensures var answer := Attempt(st, call, config);
      && (answer.Err? <==> |Filter(all, Standing(OfModule, all))| > config.maxDeclarationsPerModule)
      && (answer.Err? ==> answer == Err(CapacityExceeded))
  {
    OwnRecord(st, call);
    NewEntries(st, call);
    UpdateAnswer(st, call, config);
    hide *;
    TrimRefused(OfModule, all, config.maxDeclarationsPerModule, config.maxClaimHistory);
  }

  lemma NewEntries(st: State, call: Call)
    requires (call.op.UpdateIdentity? || call.op.PublishCapability?) && call.op.target.uid in st.modules
    requires st.modules[call.op.target.uid].uid == call.op.target.uid
    requires st.modules[call.op.target.uid].incarnation == call.op.target.incarnation
    ensures var r, s := st.modules[call.op.target.uid], StampOf(st, call);
      match call.op
      case UpdateIdentity(a, h, v, provenance) =>
        NewClaim(v.attr, v.subkey, v.value, a, r.uid, r.incarnation, [], s)
        == Claim(v.attr, v.subkey, v.value, a.source, a.epoch, h.uid, h.incarnation, [], st.generation + 1,
                 st.nextSequence, call.clock.wallNs, provenance, true)
      case PublishCapability(a, h, key, subkey, value, _, provenance) =>
        NewClaim(key, subkey, value, a, r.uid, r.incarnation, [], s)
        == Claim(key, subkey, value, a.source, a.epoch, h.uid, h.incarnation, [], st.generation + 1, st.nextSequence,
                 call.clock.wallNs, provenance, true)
      case _ => true
  {
  }

  lemma TrimRefused<V(!new)>(kind: ClaimKind, s: seq<Claim<V>>, maxTotal: nat, maxHistory: nat)
    ensures TrimList(kind, s, maxTotal, maxHistory).Err? <==> |Filter(s, Standing(kind, s))| > maxTotal
    ensures TrimList(kind, s, maxTotal, maxHistory).Err? ==>
              TrimList(kind, s, maxTotal, maxHistory) == Err(CapacityExceeded)
  {
    FailsExactly(kind, s, maxTotal);
    hide Filter, KeepRecent, Shrink;
    if Shrink(kind, s, maxTotal).Err? {
      ShrinkError(kind, s, maxTotal);
    }
  }

  lemma OwnRecord(st: State, call: Call)
    requires Good(st) && TargetOf(call.op).Some?
    requires DoorAnswer(st, AuthorityOf(call.op).value, TargetOf(call.op)).Ok?
    ensures var h := TargetOf(call.op).value;
      h.uid in st.modules && st.modules[h.uid].uid == h.uid && st.modules[h.uid].incarnation == h.incarnation
  {
    RecordAt(st, TargetOf(call.op).value.uid, st.nextSequence);
  }

  /** The answer of the two calls is the answer of their trim. */
  lemma UpdateAnswer(st: State, call: Call, config: Config)
    requires LetIn(st, call, config) && (call.op.UpdateIdentity? || call.op.PublishCapability?)
    requires call.op.target.uid in st.modules
    ensures var r, s, answer := st.modules[call.op.target.uid], StampOf(st, call), Attempt(st, call, config);
      match call.op
      case UpdateIdentity(a, _, v, _) =>
        var t := TrimList(OfIdentity, r.claims + [NewClaim(v.attr, v.subkey, v.value, a, r.uid, r.incarnation, [], s)],
                          config.maxClaimsPerModule, config.maxClaimHistory);
        && (answer.Err? <==> t.Err?) && (t.Err? ==> answer == Err(t.code))
      case PublishCapability(a, _, key, subkey, value, _, _) =>
        var t := TrimList(OfModule, r.declarations + [NewClaim(key, subkey, value, a, r.uid, r.incarnation, [], s)],
                          config.maxDeclarationsPerModule, config.maxClaimHistory);
        && (answer.Err? <==> t.Err?) && (t.Err? ==> answer == Err(t.code))
      case _ => true
  {
    ThroughTheDoor(st, call, config);
    ReachedAt(st, call);
    hide Attempt, CheckCall, StaleCall, DoorAnswer, ModuleAt, TrimList, NewClaim, RegisterSourceBody,
         RegisterModuleBody, PublishPortCapabilityBody, AttachBody, DetachBody, IngestBody, PublishThresholdBody,
         PublishRuleBody, RetireRuleBody, TransitionBody, ReconcileBody, StampOf;
  }

  lemma ShrinkCodes(kind: ClaimKind)
    ensures forall s: seq<IdentityClaim>, n: nat :: Shrink(kind, s, n).Err? ==>
            Shrink(kind, s, n) == Err(CapacityExceeded)
  {
    forall s: seq<IdentityClaim>, n: nat | Shrink(kind, s, n).Err? ensures Shrink(kind, s, n) == Err(CapacityExceeded) {
      ShrinkError(kind, s, n);
    }
  }

  lemma KnownKey(st: State, key: Text)
    requires Good(st) && key in st.moduleUidByKey
    ensures st.moduleUidByKey[key] in st.modules
  {
    hide RecordsOk, PortsOk, AttachmentsOk, ThresholdsOk, RulesOk, SourcesOk;
  }

  // ----- Port lists -----

  lemma {:induction false} ShrunkStanding(s: seq<Declaration>, max: nat, d: Declaration)
    requires Shrink(OfPort, s, max).Ok?
    ensures var t := Shrink(OfPort, s, max).value;
      Filter(t + [d], Standing(OfPort, t + [d])) == Filter(s + [d], Standing(OfPort, s + [d]))
    decreases |s|
  {
    hide Filter, IsSuperseded;
    if |s| > max {
      var i := FirstSuperseded(OfPort, s, 0);
      ShrunkStanding(Erase(s, i), max, d);
      assert Erase(s, i) + [d] == Erase(s + [d], i);
      MoreStillSupersede(s, d, s[i]);
      EraseKeepsStanding(OfPort, s + [d], i);
    }
  }

  lemma MoreStillSupersede(s: seq<Declaration>, d: Declaration, c: Declaration)
    requires IsSuperseded(OfPort, s, c)
    ensures IsSuperseded(OfPort, s + [d], c)
  {
    var j :| 0 <= j < |s| && Supersedes(OfPort, s[j], c);
    assert (s + [d])[j] == s[j];
  }

  /**
   * A port list refuses a declaration for either of two reasons: it is full and one place cannot be freed among what it
   * holds, or with the declaration too many entries remain.
   */
  lemma PortListRefuses(s: seq<Declaration>, d: Declaration, max: U32)
    ensures var answer := PublishOnPort(s, d, max); var room := if max == 0 then 0xFFFF_FFFF else max - 1;
      && (answer.Err? <==> (|s| >= max && |Filter(s, Standing(OfPort, s))| > room)
                           || |Filter(s + [d], Standing(OfPort, s + [d]))| > max)
      && (answer.Err? ==> answer == Err(CapacityExceeded))
  {
    hide Filter, Shrink;
    var room := if max == 0 then 0xFFFF_FFFF else max - 1;
    FailsExactly(OfPort, s, room);
    if Shrink(OfPort, s, room).Err? {
      ShrinkError(OfPort, s, room);
    } else {
      ShrunkStanding(s, room, d);
      FailsExactly(OfPort, Shrink(OfPort, s, room).value + [d], max);
      if Shrink(OfPort, Shrink(OfPort, s, room).value + [d], max).Err? {
        ShrinkError(OfPort, Shrink(OfPort, s, room).value + [d], max);
      }
    }
    FailsExactly(OfPort, s + [d], max);
    if Shrink(OfPort, s + [d], max).Err? {
      ShrinkError(OfPort, s + [d], max);
    }
  }

  lemma PortRefused(st: State, call: Call, config: Config, d: Declaration)
    requires LetIn(st, call, config) && call.op.PublishPortCapability?
    requires var op := call.op;
      d == Claim(op.capability, op.subkey, op.content, op.authority.source, op.authority.epoch, 0, 0, op.port,
                 st.generation + 1, st.nextSequence, call.clock.wallNs, op.provenance, true)
    ensures var answer, max := Attempt(st, call, config), config.maxDeclarationsPerPort;
      var s := if call.op.port in st.ports then st.ports[call.op.port].declarations else [];
      && (answer.Err? <==>
          || (call.op.port !in st.ports && |st.ports| >= config.maxPorts)
          || (|s| >= max && |Filter(s, Standing(OfPort, s))| > (if max == 0 then 0xFFFF_FFFF else max - 1))
          || |Filter(s + [d], Standing(OfPort, s + [d]))| > max)
      && (answer.Err? ==> answer == Err(CapacityExceeded))
  {
    ThroughTheDoor(st, call, config);
    var begun, op := st.(nextSequence := st.nextSequence + 1), call.op;
    DoorIsModuleAt(begun, call, op.authority);
    SameDoor(st, begun, op.authority, TargetOf(op));
    PortEntry(st, call);
    hide Attempt, CheckCall, StaleCall, DoorAnswer, Authorize, ModuleAt, Filter, IsSuperseded, StampOf, NewClaim,
         RegisterSourceBody, RegisterModuleBody, UpdateIdentityBody, PublishCapabilityBody, PublishPortCapabilityBody,
         AttachBody, DetachBody, IngestBody, PublishThresholdBody, PublishRuleBody, RetireRuleBody, TransitionBody,
         ReconcileBody;
    PortBodyRefuses(begun, op.authority, op.port, op.capability, op.subkey, op.content, config, StampOf(st, call), d);
  }

  lemma PortEntry(st: State, call: Call)
    requires call.op.PublishPortCapability?
    ensures var op := call.op;
      NewClaim(op.capability, op.subkey, op.content, op.authority, 0, 0, op.port, StampOf(st, call))
      == Claim(op.capability, op.subkey, op.content, op.authority.source, op.authority.epoch, 0, 0, op.port,
               st.generation + 1, st.nextSequence, call.clock.wallNs, op.provenance, true)
  {
  }

  lemma PortBodyRefuses(st: State, a: RegistryState.Authority, port: Text, key: nat, subkey: Text,
                        value: CapabilityValue, config: Config, s: Stamp, d: Declaration)
    requires Authorize(st, a).Ok? && d == NewClaim(key, subkey, value, a, 0, 0, port, s)
    ensures var answer := PublishPortCapabilityBody(st, a, port, key, subkey, value, config, s);
      var max := config.maxDeclarationsPerPort;
      var held := if port in st.ports then st.ports[port].declarations else [];
      && (answer.Err? <==>
          || (port !in st.ports && |st.ports| >= config.maxPorts)
          || (|held| >= max && |Filter(held, Standing(OfPort, held))| > (if max == 0 then 0xFFFF_FFFF else max - 1))
          || |Filter(held + [d], Standing(OfPort, held + [d]))| > max)
      && (answer.Err? ==> answer == Err(CapacityExceeded))
  {
    hide Authorize, PublishOnPort, Filter, IsSuperseded, NewClaim;
    PortListRefuses(if port in st.ports then st.ports[port].declarations else [], d, config.maxDeclarationsPerPort);
  }

  /**
   * A full port list in which nothing is superseded refuses even a revision of one of its own entries, although the
   * list would fit with the entry revised; a module's list takes it.
   */
  lemma FullPortRefusesRevision(s: seq<Declaration>, d: Declaration, max: U32, i: nat)
    requires |s| == max && i < |s| && forall c :: c in s ==> !IsSuperseded(OfPort, s, c)
    requires SameSeries(d, s[i]) && s[i].sequence < d.sequence
    ensures PublishOnPort(s, d, max) == Err(CapacityExceeded)
    ensures Shrink(OfPort, s + [d], max).Ok?
  {
    Trim.FilterAll(s, Standing(OfPort, s));
    PortListRefuses(s, d, max);
    FailsExactly(OfPort, s + [d], max);
    FailsExactly(OfPort, s, max - 1);
    var t := s + [d];
    assert t[i] == s[i] && t[|s|] == d && Supersedes(OfPort, t[|s|], t[i]);
    StandingFewer(t, i);
  }

  lemma StandingFewer(t: seq<Declaration>, i: nat)
    requires i < |t| && IsSuperseded(OfPort, t, t[i])
    ensures |Filter(t, Standing(OfPort, t))| < |t|
  {
    hide IsSuperseded;
    EraseKeepsStanding(OfPort, t, i);
    hide Filter;
  }

  // ----- Fenced handles -----

  /** The module has moved on to a later incarnation. */
  ghost predicate Outlived(st: State, h: Handle) {
    h.uid in st.modules && h.incarnation < st.modules[h.uid].incarnation
  }

  lemma OutlivedStays(st: State, next: State, h: Handle, q: nat)
    requires Outlived(st, h) && StepOk(st, next, q)
    ensures Outlived(next, h)
  {
    hide PortsStep, Later, ListStep;
    assert RecordStep(st.modules[h.uid], next.modules[h.uid], q);
  }

  lemma {:induction false} OutlivedForGood(st: State, calls: seq<Call>, config: Config, h: Handle)
    requires Good(st) && Outlived(st, h)
    ensures Outlived(RunCalls(st, calls, config), h)
  {
    hide Good, Outlived, Attempt, StepOk;
    if calls != [] {
      var front, call := calls[..|calls| - 1], calls[|calls| - 1];
      OutlivedForGood(st, front, config, h);
      RunKeepsInvariant(st, front, config);
      var before := RunCalls(st, front, config);
      if Attempt(before, call, config).Ok? {
        CommitStep(before, call, config);
        OutlivedStays(before, Attempt(before, call, config).value, h, before.nextSequence);
      }
    }
  }

  lemma OutlivedIsRefused(st: State, call: Call, config: Config, h: Handle)
    requires Outlived(st, h) && TargetOf(call.op) == Some(h)
    ensures Attempt(st, call, config).Err?
  {
    hide Body, CheckCall, Outlived;
    var a := AuthorityOf(call.op).value;
    assert DoorAnswer(st, a, Some(h)).Err? by { OutlivedDoor(st, a, h); }
    if Attempt(st, call, config).Ok? {
      CommitParts(st, call, config);
      TurnedAway(st, call, config, a);
    }
  }

  lemma OutlivedDoor(st: State, a: RegistryState.Authority, h: Handle)
    requires Outlived(st, h)
    ensures DoorAnswer(st, a, Some(h)).Err?
  {
  }

  /** A handle on an incarnation that was replaced never commits anything again. */
  lemma OldHandleNeverCommits(st: State, calls: seq<Call>, config: Config, h: Handle, i: nat)
    requires Good(st) && Outlived(st, h) && i < |calls| && TargetOf(calls[i].op) == Some(h)
    ensures !Commits(st, calls, config, i)
  {
    hide Good, Outlived, Attempt;
    OutlivedForGood(st, calls[..i], config, h);
    OutlivedIsRefused(RunCalls(st, calls[..i], config), calls[i], config, h);
  }
}
