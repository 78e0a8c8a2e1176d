/** Argument checks made before the mutation path is entered, src/registry.cpp:140-205 and the heads of each call. */
module Validation {
  import opened Bytes
  import opened Provenances
  import Utf8
  import opened Latch
  import opened Health
  import opened RegistryState

  const MAX_KEY_BYTES := 128
  const MAX_IDENTITY_VALUE_BYTES := 256
  const VENDOR_SPECIFIC_FIELD := 10
  const VENDOR_SPECIFIC_KEY := 23
  const UNSUPPORTED_KEY := 24

  function Check(holds: bool, code: StatusCode): Result<()> { if holds then Ok(()) else Err(code) }

  function CheckProvenance(p: Provenance): Result<()> {
    Check(&& p.kind != UndeclaredEvidence && p.origin != []
          && |p.origin| <= 128 && |p.procedure| <= 128 && |p.captureRef| <= 256
          && Utf8.Valid(p.origin) && Utf8.Valid(p.procedure), InvalidArgument)
  }

  function CheckIdentity(v: IdentityValue): Result<()> {
    Check(&& v.attr != 0 && v.value != [] && |v.value| <= MAX_IDENTITY_VALUE_BYTES
          && Utf8.Valid(v.value) && Utf8.Valid(v.subkey)
          && (v.attr == VENDOR_SPECIFIC_FIELD <==> v.subkey != [])
          && |v.subkey| <= 128, InvalidArgument)
  }

  predicate NoRepeats(identity: seq<IdentityValue>) {
    forall i, j :: 0 <= i < j < |identity| ==>
      identity[i].attr != identity[j].attr || identity[i].subkey != identity[j].subkey
  }

  function CheckCapabilityKey(key: nat, subkey: Text, limitSubkey: bool): Result<()> {
    if key == 0 || key == UNSUPPORTED_KEY then Err(Unsupported)
    else Check((key == VENDOR_SPECIFIC_KEY <==> subkey != []) && (limitSubkey ==> |subkey| <= 128), InvalidArgument)
  }

  function CheckSample(s: SampleInput, config: Config, now: int): Result<()> {
    if s.metric == UnknownMetric || s.metric == UnsupportedMetric then Err(Unsupported)
    else if s.lane != MODULE_LANE && s.lane > config.maxLaneIndex then Err(InvalidArgument)
    else if s.presence == Present && OutOfRange(s.metric, s.value) then Err(InvalidArgument)
    else
      var _ :- CheckProvenance(s.provenance);
      Check(s.wallNs <= now + config.maxFutureSkewNs, ClockSkew)
  }

  predicate OutOfRange(metric: Metric, value: real) {
    match PlausibleRange(metric)
    case Some(range) => value < range.0 || value > range.1
    case None => true
  }

  /** What a call rejects without entering the mutation path. */
  function CheckCall(op: Op, config: Config, now: int): Result<()> {
    match op
    case RegisterSource(name, instanceId, description) =>
      Check(&& name != [] && |name| <= MAX_KEY_BYTES && Utf8.Valid(name) && Utf8.Valid(instanceId)
            && |description| <= 512 && |instanceId| <= 128, InvalidArgument)
    case RegisterModule(key, identity, _, provenance, _, _) =>
      var _ :- Check(key != [], InvalidArgument);
      var _ :- CheckProvenance(provenance);
      var _ :- Check(forall i :: 0 <= i < |identity| ==> CheckIdentity(identity[i]).Ok?, InvalidArgument);
      Check(NoRepeats(identity), InvalidArgument)
    case UpdateIdentity(_, _, value, provenance) =>
      var _ :- CheckIdentity(value);
      CheckProvenance(provenance)
    case PublishCapability(_, _, key, subkey, _, shapeCheck, provenance) =>
      var _ :- CheckCapabilityKey(key, subkey, true);
      var _ :- shapeCheck;
      CheckProvenance(provenance)
    case PublishPortCapability(_, port, key, subkey, _, shapeCheck, provenance) =>
      var _ :- CheckCapabilityKey(key, subkey, false);
      var _ :- Check(port != [], InvalidArgument);
      var _ :- shapeCheck;
      CheckProvenance(provenance)
    case Attach(_, _, slot, portIndex) => Check(slot != [] && portIndex <= 255, InvalidArgument)
    case Detach(_, _) => Ok(())
    case IngestHealth(_, _, input) => CheckSample(input, config, now)
    case PublishThreshold(_, threshold) =>
      var _ :- ValidateThreshold(threshold);
      CheckProvenance(threshold.provenance)
    case PublishRule(_, rule, ruleCheck) =>
      var _ :- ruleCheck;
      CheckProvenance(rule.provenance)
    case RetireRule(_, _) => Ok(())
    case Transition(_, _, _, reason) => Check(|reason| <= 512, InvalidArgument)
    case Reconcile(_, _) => Ok(())
  }

  /** std::find over the fields seen so far. */
  method RepeatsField(identity: seq<IdentityValue>) returns (repeats: bool)
    ensures repeats == !NoRepeats(identity)
  {
    for i := 0 to |identity|
      invariant NoRepeats(identity[..i])
    {
      for j := 0 to i
        invariant forall k :: 0 <= k < j ==>
          identity[k].attr != identity[i].attr || identity[k].subkey != identity[i].subkey
      {
        if identity[j].attr == identity[i].attr && identity[j].subkey == identity[i].subkey {
          return true;
        }
      }
    }
    assert identity[..|identity|] == identity;
    return false;
  }
}
