/** The registry's tables, src/registry_internal.hpp:44-125, and the arguments of its mutations. */
module RegistryState {
  import opened Bytes
  import opened Provenances
  import opened Consensus
  import opened Capability
  import opened Compatibility
  import opened Lifecycle
  import opened Latch
  import opened Health
  import opened HealthReport

  datatype Config = Config(
    maxSources: nat, maxModules: nat, maxPorts: nat, maxRules: U32, maxThresholds: nat, maxAttachments: nat,
    maxClaimsPerModule: nat, maxDeclarationsPerModule: nat, maxDeclarationsPerPort: U32,
    maxSamplesPerSeries: nat, maxSamplesPerModule: nat, maxClaimHistory: nat, maxLifecycleHistory: nat,
    maxLaneIndex: nat, maxFutureSkewNs: int)

  datatype LifecycleEvent = LifecycleEvent(
    from: LifecycleState, to: LifecycleState, incarnation: nat, source: nat, epoch: nat,
    generation: nat, sequence: nat, wallNs: int, reason: Text)

  datatype SourceRecord = SourceRecord(
    id: nat, name: Text, epoch: nat, instanceId: Text, description: Text, generation: nat, sequence: nat,
    registeredWallNs: int)

  type IdentityClaim = Claim<Text>
  type Declaration = Claim<CapabilityValue>

  datatype ModuleRecord = ModuleRecord(
    key: Text, uid: nat, incarnation: nat, state: LifecycleState,
    stateGeneration: nat, stateSequence: nat, stateWallNs: int,
    createdGeneration: nat, createdSequence: nat, createdWallNs: int,
    fencedGeneration: nat, incarnationCount: nat,
    claims: seq<IdentityClaim>, declarations: seq<Declaration>, samples: seq<HealthSample>,
    lifecycle: seq<LifecycleEvent>, latches: seq<LatchRecord>, seriesCounts: map<nat, nat>)

  datatype PortRecord = PortRecord(
    key: Text, firstGeneration: nat, sequence: nat, firstWallNs: int, declarations: seq<Declaration>)

  datatype AttachmentRecord = AttachmentRecord(
    slot: Text, portIndex: nat, uid: nat, incarnation: nat, source: nat, epoch: nat,
    generation: nat, sequence: nat, attachedWallNs: int, live: bool)

  datatype ThresholdRecord = ThresholdRecord(threshold: Threshold, live: bool)

  datatype State = State(
    generation: nat, registryIncarnation: nat,
    nextModuleUid: nat, nextRuleId: nat, nextSourceId: nat, nextSequence: nat,
    sources: map<nat, SourceRecord>, sourceIdByName: map<Text, nat>,
    modules: map<nat, ModuleRecord>, moduleUidByKey: map<Text, nat>,
    ports: map<Text, PortRecord>, attachments: map<Text, AttachmentRecord>,
    thresholds: seq<ThresholdRecord>, rules: map<nat, Rule>,
    mutations: nat, droppedSamples: nat)

  const EMPTY_STATE :=
    State(0, 1, 1, 1, 1, 1, map[], map[], map[], map[], map[], map[], [], map[], 0, 0)

  function Epochs(sources: map<nat, SourceRecord>): map<nat, nat> {
    map id | id in sources :: sources[id].epoch
  }

  // ----- Arguments -----

  datatype Authority = Authority(source: nat, epoch: nat)

  datatype Handle = Handle(uid: nat, incarnation: nat, generation: nat)

  datatype IdentityValue = IdentityValue(attr: nat, subkey: Text, value: Text)

  datatype Intent = EnsureCurrent | NewIncarnation

  datatype SampleInput = SampleInput(
    metric: Metric, lane: U16, presence: Presence, value: real, wallNs: int, monotonicNs: nat, clockDomain: nat,
    provenance: Provenance)

  /** One call of the mutation interface. The two checks stand for CapabilityValue::validate_for and validate_rule. */
  datatype Op =
    | RegisterSource(name: Text, instanceId: Text, description: Text)
    | RegisterModule(key: Text, identity: seq<IdentityValue>, intent: Intent, provenance: Provenance,
                     expected: nat, authority: Authority)
    | UpdateIdentity(authority: Authority, target: Handle, value: IdentityValue, provenance: Provenance)
    | PublishCapability(authority: Authority, target: Handle, capability: nat, subkey: Text,
                        content: CapabilityValue, shapeCheck: Result<()>, provenance: Provenance)
    | PublishPortCapability(authority: Authority, port: Text, capability: nat, subkey: Text,
                            content: CapabilityValue, shapeCheck: Result<()>, provenance: Provenance)
    | Attach(authority: Authority, target: Handle, slot: Text, portIndex: nat)
    | Detach(authority: Authority, slot: Text)
    | IngestHealth(authority: Authority, target: Handle, input: SampleInput)
    | PublishThreshold(authority: Authority, threshold: Threshold)
    | PublishRule(authority: Authority, rule: Rule, ruleCheck: Result<()>)
    | RetireRule(authority: Authority, ruleId: nat)
    | Transition(authority: Authority, target: Handle, to: LifecycleState, reason: Text)
    | Reconcile(authority: Authority, target: Handle)

  /** What the clock answers while the call runs; the report inside reconcile reads it a second time. */
  datatype Clock = Clock(wallNs: int, monotonicNs: nat, domain: nat, reportWallNs: int)

  /** A call, the policy it was made with, and the clock it saw. */
  datatype Call = Call(op: Op, requireGeneration: bool, clock: Clock)

  /** The generation a call is fenced on; 0 is the invalid generation and fences nothing. */
  function ExpectedGeneration(op: Op): nat {
    match op
    case RegisterModule(_, _, _, _, expected, _) => expected
    case UpdateIdentity(_, target, _, _) => target.generation
    case PublishCapability(_, target, _, _, _, _, _) => target.generation
    case Attach(_, target, _, _) => target.generation
    case IngestHealth(_, target, _) => target.generation
    case Transition(_, target, _, _) => target.generation
    case Reconcile(_, target) => target.generation
    case _ => 0
  }
}
