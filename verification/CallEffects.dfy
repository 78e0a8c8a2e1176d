/** The whole state a committed call leaves, call by call, in terms of the call alone: src/registry.cpp:638-2072. */
module CallEffects {
  import opened Bytes
  import opened Provenances
  import opened Ordering
  import A = Authority
  import opened Consensus
  import opened Capability
  import opened Lifecycle
  import opened Latch
  import opened Health
  import opened HealthReport
  import opened Trim
  import opened TrimAnswers
  import opened Answers
  import opened Samples
  import opened RegistryState
  import opened Validation
  import opened Mutations
  import opened RegistryInvariant
  import opened InvariantSteps
  import opened InvariantRegistration
  import opened Runs
  import opened Resurrection
  import opened Effects
  import Refusals

  /** A commit moves the generation, the mutation count and the sequence on by one. */
  function Bumped(st: State): State {
    st.(generation := st.generation + 1, mutations := st.mutations + 1, nextSequence := st.nextSequence + 1)
  }

  /** The copy a mutation body starts from: the call has taken its sequence number. */
  function Opening(st: State): State { st.(nextSequence := st.nextSequence + 1) }

  /** What the body leaves is published one generation and one mutation on. */
  predicate Publishes(st: State, r: Result<State>, next: State) {
    r.Ok? && next == r.value.(generation := st.generation + 1, mutations := st.mutations + 1)
  }

  lemma Begun(st: State, call: Call, config: Config, next: State)
    requires Good(st) && Attempt(st, call, config) == Ok(next)
    ensures Publishes(st, Body(Opening(st), call, config, StampOf(st, call)), next)
    ensures CheckCall(call.op, config, call.clock.wallNs).Ok? && Inv(Opening(st), st.nextSequence)
  {
    hide Inv, Body, CheckCall, Attempt;
    CommitParts(st, call, config);
    InvIgnoresCounters(st, st.(nextSequence := st.nextSequence + 1), st.nextSequence);
  }

  // ----- Identity and capabilities -----

  lemma UpdateEffect(st: State, call: Call, config: Config, next: State, x: IdentityClaim)
    requires Good(st) && call.op.UpdateIdentity? && Attempt(st, call, config) == Ok(next) && config.maxClaimHistory >= 1
    ensures var op := call.op; var uid := op.target.uid;
      var c := Claim(op.value.attr, op.value.subkey, op.value.value, op.authority.source, op.authority.epoch, uid,
                     op.target.incarnation, [], st.generation + 1, st.nextSequence, call.clock.wallNs, op.provenance,
                     true);
      && IdentityLive(next, uid, c)
      && (IdentityLive(next, uid, x) <==> x == c || (IdentityLive(st, uid, x) && !Restates(c, x)))
      && uid in st.modules && uid in next.modules
      && (x in next.modules[uid].claims ==> x == c || x in st.modules[uid].claims)
      && next == Bumped(st).(modules := st.modules[uid := st.modules[uid].(claims := next.modules[uid].claims)])
  {
    hide Inv, Attempt, UpdateIdentityBody, ClaimLive, Restates;
    Begun(st, call, config, next);
    var begun := st.(nextSequence := st.nextSequence + 1);
    UpdateIsLive(begun, call.op.authority, call.op.target, call.op.value, config, StampOf(st, call), x);
  }

  lemma PublishEffect(st: State, call: Call, config: Config, next: State, x: Declaration)
    requires Good(st) && call.op.PublishCapability? && Attempt(st, call, config) == Ok(next)
    requires config.maxClaimHistory >= 1
    ensures var op := call.op; var uid := op.target.uid;
      var d := Claim(op.capability, op.subkey, op.content, op.authority.source, op.authority.epoch, uid,
                     op.target.incarnation, [], st.generation + 1, st.nextSequence, call.clock.wallNs, op.provenance,
                     true);
      && DeclarationLive(next, uid, d)
      && (DeclarationLive(next, uid, x) <==> x == d || (DeclarationLive(st, uid, x) && !Restates(d, x)))
      && uid in st.modules && uid in next.modules
      && (x in next.modules[uid].declarations ==> x == d || x in st.modules[uid].declarations)
      && next == Bumped(st).(modules := st.modules[uid :=
                                               st.modules[uid].(declarations := next.modules[uid].declarations)])
  {
    hide Inv, Attempt, PublishCapabilityBody, ClaimLive, Restates;
    Begun(st, call, config, next);
    var begun := st.(nextSequence := st.nextSequence + 1);
    DeclarationIsLive(begun, call.op.authority, call.op.target, call.op.capability, call.op.subkey, call.op.content,
                      config, StampOf(st, call), x);
  }

  lemma PublishPortEffect(st: State, call: Call, config: Config, next: State, x: Declaration)
    requires Good(st) && call.op.PublishPortCapability? && Attempt(st, call, config) == Ok(next)
    ensures var op := call.op; var port := op.port;
      var d := Claim(op.capability, op.subkey, op.content, op.authority.source, op.authority.epoch, 0, 0, port,
                     st.generation + 1, st.nextSequence, call.clock.wallNs, op.provenance, true);
      && PortDeclarationLive(next, port, d)
      && (PortDeclarationLive(next, port, x) <==> x == d || (PortDeclarationLive(st, port, x) && !Restates(d, x)))
      && port in next.ports
      && (x in next.ports[port].declarations ==> x == d || (port in st.ports && x in st.ports[port].declarations))
      && next == Bumped(st).(ports := st.ports[port :=
                                          (if port in st.ports then st.ports[port]
                                           else PortRecord(port, st.generation + 1, st.nextSequence,
                                                           call.clock.wallNs, []))
                                          .(declarations := next.ports[port].declarations)])
  {
    hide Inv, Attempt, PublishPortCapabilityBody, ClaimLive, Restates;
    Begun(st, call, config, next);
    var begun := st.(nextSequence := st.nextSequence + 1);
    PortDeclarationIsLive(begun, call.op.authority, call.op.port, call.op.capability, call.op.subkey, call.op.content,
                          config, StampOf(st, call), x);
  }

  // ----- What is live is answered -----

  lemma LiveStandsHere<V(!new)>(kind: ClaimKind, s: seq<Claim<V>>, incarnation: nat, e: map<nat, nat>, attr: nat,
                                subkey: Text, c: Claim<V>)
    requires OneSubject(kind, s) && (kind == OfPort ==> forall o :: o in s ==> o.incarnation == incarnation)
    ensures Stands(kind, s, incarnation, e, attr, subkey, c) <==>
            ClaimLive(kind, s, incarnation, e, c) && c.attr == attr && c.subkey == subkey
  {
    hide Shadowed, A.SourceIsLive, OneSubject, Stands;
    if c in s {
      UnshadowedStands(kind, s, incarnation, e, attr, subkey, c);
    } else if Stands(kind, s, incarnation, e, attr, subkey, c) {
      StandsIn(kind, s, incarnation, e, attr, subkey, c);
    }
  }

  /** Nobody but the source of c has a live entry for what c states. */
  ghost predicate SoleVoice<V(!new)>(kind: ClaimKind, s: seq<Claim<V>>, incarnation: nat, e: map<nat, nat>,
                                     c: Claim<V>)
  {
    forall d :: ClaimLive(kind, s, incarnation, e, d) && d.attr == c.attr && d.subkey == c.subkey ==>
      d.source == c.source
  }

  /** The answer for what c states shows c, and gives its value when no other source speaks. */
  ghost predicate Answered<V(!new)>(kind: ClaimKind, s: seq<Claim<V>>, incarnation: nat, e: map<nat, nat>, c: Claim<V>)
  {
    exists g :: g in Build(LiveView(kind, s, incarnation, e)) && g.key == GroupKey(c.attr, c.subkey)
                && AsLive(c) in g.claims
                && (SoleVoice(kind, s, incarnation, e, c) ==>
                      g.claims == [AsLive(c)] && g.outcome == SingleSource && g.value == Some(c.value))
  }

  lemma ShownInAnswer<V(!new)>(kind: ClaimKind, s: seq<Claim<V>>, incarnation: nat, e: map<nat, nat>, c: Claim<V>,
                               g: Group<V>)
    requires OneSubject(kind, s) && Orderly(s) && g == AnswerFor(kind, s, incarnation, e, c.attr, c.subkey)
    requires Stands(kind, s, incarnation, e, c.attr, c.subkey, c)
    ensures g in Build(LiveView(kind, s, incarnation, e)) && g.key == GroupKey(c.attr, c.subkey)
    ensures AsLive(c) in g.claims
  {
    hide OneSubject, Orderly, Stands, LiveView, Keys;
    IsStated(kind, s, incarnation, e, c);
    KeysStated(kind, s, incarnation, e, c.attr, c.subkey);
    GroupsExactly(LiveView(kind, s, incarnation, e), GroupKey(c.attr, c.subkey));
    hide GroupOf, Build;
    AnswerClaims(kind, s, incarnation, e, c.attr, c.subkey);
  }

  lemma LiveIsAnswered<V(!new)>(kind: ClaimKind, s: seq<Claim<V>>, incarnation: nat, e: map<nat, nat>, c: Claim<V>)
    requires OneSubject(kind, s) && Orderly(s)
    requires kind == OfPort ==> forall o :: o in s ==> o.incarnation == incarnation
    requires ClaimLive(kind, s, incarnation, e, c)
    ensures Answered(kind, s, incarnation, e, c)
  {
    hide OneSubject, Orderly, Stands, ClaimLive, Build, LiveView, AnswerFor;
    var g := AnswerFor(kind, s, incarnation, e, c.attr, c.subkey);
    LiveStandsHere(kind, s, incarnation, e, c.attr, c.subkey, c);
    ShownInAnswer(kind, s, incarnation, e, c, g);
    if SoleVoice(kind, s, incarnation, e, c) {
      forall d | Stands(kind, s, incarnation, e, c.attr, c.subkey, d) ensures d.source == c.source {
        LiveStandsHere(kind, s, incarnation, e, c.attr, c.subkey, d);
      }
      SoleStatementAnswers(kind, s, incarnation, e, c);
    }
  }

  lemma ModuleLists(st: State, uid: nat)
    requires Good(st) && uid in st.modules
    ensures OneSubject(OfIdentity, st.modules[uid].claims) && Orderly(st.modules[uid].claims)
    ensures OneSubject(OfModule, st.modules[uid].declarations) && Orderly(st.modules[uid].declarations)
  {
    hide Inv, RecordOk, ClaimsOk, OneSubject, Orderly, UpTo;
    RecordAt(st, uid, st.nextSequence);
    var r, e := st.modules[uid], Epochs(st.sources);
    OwnLists(r, uid, e, st.nextSequence);
    ListsAreTrimmable(OfIdentity, r.claims, uid, r.incarnation, [], e, st.nextSequence);
    ListsAreTrimmable(OfModule, r.declarations, uid, r.incarnation, [], e, st.nextSequence);
  }

  lemma PortLists(st: State, port: Text)
    requires Good(st) && port in st.ports
    ensures OneSubject(OfPort, st.ports[port].declarations) && Orderly(st.ports[port].declarations)
    ensures forall o :: o in st.ports[port].declarations ==> o.incarnation == 0
  {
    PortAt(st, port, st.nextSequence);
    hide Inv, OneSubject, Orderly, UpTo;
    ListsAreTrimmable(OfPort, st.ports[port].declarations, 0, 0, port, Epochs(st.sources), st.nextSequence);
  }

  /** What an update states is what the module's identity answers. */
  lemma UpdateIsAnswered(st: State, call: Call, config: Config, next: State)
    requires Good(st) && call.op.UpdateIdentity? && Attempt(st, call, config) == Ok(next) && config.maxClaimHistory >= 1
    ensures var op := call.op; var uid := op.target.uid;
      && uid in next.modules
      && Answered(OfIdentity, next.modules[uid].claims, op.target.incarnation, Epochs(next.sources),
                  Claim(op.value.attr, op.value.subkey, op.value.value, op.authority.source, op.authority.epoch, uid,
                        op.target.incarnation, [], st.generation + 1, st.nextSequence, call.clock.wallNs,
                        op.provenance, true))
  {
    hide Inv, Attempt, ClaimLive, Restates, OneSubject, Orderly, Answered;
    var op := call.op;
    var c := Claim(op.value.attr, op.value.subkey, op.value.value, op.authority.source, op.authority.epoch,
                   op.target.uid, op.target.incarnation, [], st.generation + 1, st.nextSequence, call.clock.wallNs,
                   op.provenance, true);
    UpdateEffect(st, call, config, next, c);
    AttemptKeeps(st, call, config);
    ModuleLists(next, op.target.uid);
    LiveIncarnation(OfIdentity, next.modules[op.target.uid].claims, next.modules[op.target.uid].incarnation,
                    Epochs(next.sources), c);
    LiveIsAnswered(OfIdentity, next.modules[op.target.uid].claims, op.target.incarnation, Epochs(next.sources), c);
  }

  lemma LiveIncarnation<V>(kind: ClaimKind, s: seq<Claim<V>>, incarnation: nat, e: map<nat, nat>, c: Claim<V>)
    requires ClaimLive(kind, s, incarnation, e, c)
    ensures c.incarnation == incarnation
  {
  }

  lemma PublicationIsAnswered(st: State, call: Call, config: Config, next: State)
    requires Good(st) && call.op.PublishCapability? && Attempt(st, call, config) == Ok(next)
    requires config.maxClaimHistory >= 1
    ensures var op := call.op; var uid := op.target.uid;
      && uid in next.modules
      && Answered(OfModule, next.modules[uid].declarations, op.target.incarnation, Epochs(next.sources),
                  Claim(op.capability, op.subkey, op.content, op.authority.source, op.authority.epoch, uid,
                        op.target.incarnation, [], st.generation + 1, st.nextSequence, call.clock.wallNs,
                        op.provenance, true))
  {
    hide Inv, Attempt, ClaimLive, Restates, OneSubject, Orderly, Answered;
    var op := call.op;
    var d := Claim(op.capability, op.subkey, op.content, op.authority.source, op.authority.epoch, op.target.uid,
                   op.target.incarnation, [], st.generation + 1, st.nextSequence, call.clock.wallNs, op.provenance,
                   true);
    PublishEffect(st, call, config, next, d);
    AttemptKeeps(st, call, config);
    ModuleLists(next, op.target.uid);
    LiveIncarnation(OfModule, next.modules[op.target.uid].declarations, next.modules[op.target.uid].incarnation,
                    Epochs(next.sources), d);
    LiveIsAnswered(OfModule, next.modules[op.target.uid].declarations, op.target.incarnation, Epochs(next.sources), d);
  }

  lemma PortPublicationIsAnswered(st: State, call: Call, config: Config, next: State)
    requires Good(st) && call.op.PublishPortCapability? && Attempt(st, call, config) == Ok(next)
    ensures var op := call.op;
      && op.port in next.ports
      && Answered(OfPort, next.ports[op.port].declarations, 0, Epochs(next.sources),
                  Claim(op.capability, op.subkey, op.content, op.authority.source, op.authority.epoch, 0, 0, op.port,
                        st.generation + 1, st.nextSequence, call.clock.wallNs, op.provenance, true))
  {
    hide Inv, Attempt, ClaimLive, Restates, OneSubject, Orderly, Answered;
    var op := call.op;
    var d := Claim(op.capability, op.subkey, op.content, op.authority.source, op.authority.epoch, 0, 0, op.port,
                   st.generation + 1, st.nextSequence, call.clock.wallNs, op.provenance, true);
    PublishPortEffect(st, call, config, next, d);
    AttemptKeeps(st, call, config);
    PortLists(next, op.port);
    LiveIsAnswered(OfPort, next.ports[op.port].declarations, 0, Epochs(next.sources), d);
  }

  // ----- Registration -----

  function RegisteredUid(st: State, key: Text): nat {
    if key in st.moduleUidByKey then st.moduleUidByKey[key] else st.nextModuleUid
  }

  function RegisteredIncarnation(st: State, key: Text, intent: Intent): nat {
    var uid := RegisteredUid(st, key);
    if uid !in st.modules then 1
    else st.modules[uid].incarnation + if intent == NewIncarnation then 1 else 0
  }

  /** The entry a registration makes of one element of its identity. */
  function StatedBy(v: IdentityValue, a: RegistryState.Authority, uid: nat, incarnation: nat, s: Stamp): IdentityClaim {
    Claim(v.attr, v.subkey, v.value, a.source, a.epoch, uid, incarnation, [], s.generation, s.sequence, s.now,
          s.provenance, true)
  }

  lemma StatedClaims(identity: seq<IdentityValue>, a: RegistryState.Authority, uid: nat, incarnation: nat, s: Stamp,
                     x: IdentityClaim)
    ensures var added := IdentityClaims(identity, a, uid, incarnation, s);
      && (x in added <==> exists v :: v in identity && x == StatedBy(v, a, uid, incarnation, s))
      && (RestatedIn(added, x) <==> exists v :: v in identity && Restates(StatedBy(v, a, uid, incarnation, s), x))
  {
    var added := IdentityClaims(identity, a, uid, incarnation, s);
    assert |added| == |identity|;
    forall i | 0 <= i < |identity|
      ensures added[i] == StatedBy(identity[i], a, uid, incarnation, s) && identity[i] in identity && added[i] in added
    {
    }
    if x in added {
      var i :| 0 <= i < |added| && added[i] == x;
    }
    if v :| v in identity && x == StatedBy(v, a, uid, incarnation, s) {
      var i :| 0 <= i < |identity| && identity[i] == v;
    }
    if c :| c in added && Restates(c, x) {
      var i :| 0 <= i < |added| && added[i] == c;
    }
    if v :| v in identity && Restates(StatedBy(v, a, uid, incarnation, s), x) {
      var i :| 0 <= i < |identity| && identity[i] == v;
    }
  }

  lemma OpenedAs(st: State, key: Text, intent: Intent, a: RegistryState.Authority, config: Config, s: Stamp,
                 x: IdentityClaim)
    requires Inv(st, s.sequence) && OpenModule(st, key, intent, a, config, s).Ok?
    ensures var found := OpenModule(st, key, intent, a, config, s).value;
      var n := RegisteredIncarnation(st, key, intent);
      && found.uid == RegisteredUid(st, key) && found.uid in found.st.modules
      && found.st.modules[found.uid].incarnation == n && found.st.modules[found.uid].uid == found.uid
      && (ClaimLive(OfIdentity, found.st.modules[found.uid].claims, n, Epochs(st.sources), x) <==>
          IdentityLive(st, found.uid, x) && x.incarnation == n)
      && (x in found.st.modules[found.uid].claims ==> found.uid in st.modules && x in st.modules[found.uid].claims)
  {
    hide Inv, RecordOk, ClaimsOk, Shadowed, A.SourceIsLive, DetachAll, Gone, EventOf;
    var uid := RegisteredUid(st, key);
    if key !in st.moduleUidByKey {
      UidIsNew(st, s.sequence);
    } else {
      RecordUidIs(st, uid, s.sequence);
      RecordAt(st, uid, s.sequence);
      OwnLists(st.modules[uid], uid, Epochs(st.sources), s.sequence);
      if intent != EnsureCurrent && x in st.modules[uid].claims {
        OldClaim(st.modules[uid].claims, uid, st.modules[uid].incarnation, Epochs(st.sources), s.sequence, x);
      }
    }
  }

  lemma OldClaim(s: seq<IdentityClaim>, uid: nat, incarnation: nat, e: map<nat, nat>, q: nat, x: IdentityClaim)
    requires ClaimsOk(s, uid, incarnation, [], e, q) && x in s
    ensures x.incarnation <= incarnation && x.sequence < q
  {
  }

  /**
   * A registration that commits states every element of its identity, and nothing else: of the entries of the
   * incarnation it registers, exactly those it restates no longer count.
   */
  lemma RegistrationIsLive(st: State, key: Text, identity: seq<IdentityValue>, intent: Intent,
                           a: RegistryState.Authority, config: Config, s: Stamp, x: IdentityClaim)
    requires Inv(st, s.sequence) && NoRepeats(identity) && config.maxClaimHistory >= 1
    requires RegisterModuleBody(st, key, identity, intent, a, config, s).Ok?
    ensures var next := RegisterModuleBody(st, key, identity, intent, a, config, s).value;
      var uid := RegisteredUid(st, key); var n := RegisteredIncarnation(st, key, intent);
      && uid in next.modules && next.modules[uid].incarnation == n
      && (IdentityLive(next, uid, x) <==>
          || (exists v :: v in identity && x == StatedBy(v, a, uid, n, s))
          || (&& IdentityLive(st, uid, x) && x.incarnation == n
              && !exists v :: v in identity && Restates(StatedBy(v, a, uid, n, s), x)))
      && (x in next.modules[uid].claims ==>
            || (exists v :: v in identity && x == StatedBy(v, a, uid, n, s))
            || (uid in st.modules && x in st.modules[uid].claims))
  {
    hide Inv, Authorize, OpenModule, RecordOk, ClaimsOk, Known, EnsureRegistered, IdentityClaims, Capped,
         NoRepeats, TrimList, OneSubject, Orderly, UpTo, PutModule, ClaimLive, JustAdded, RestatedIn, Faithful,
         A.SourceIsLive, Restates, StatedBy, RegisteredUid, RegisteredIncarnation;
    var q, e := s.sequence, Epochs(st.sources);
    KnownAuthority(st, a, q, q + 1);
    AuthorizedIsLive(st, a);
    OpenKeeps(st, key, intent, a, config, s);
    OpenedAs(st, key, intent, a, config, s, x);
    var found := OpenModule(st, key, intent, a, config, s).value;
    var r := found.st.modules[found.uid];
    EnsureRegisteredLists(r, a, s);
    var t := EnsureRegistered(r, a, s);
    var added := IdentityClaims(identity, a, t.uid, t.incarnation, s);
    var all := t.claims + added;
    PushAllOk(t.claims, identity, a, t.uid, t.incarnation, s, e);
    ListsAreTrimmable(OfIdentity, all, t.uid, t.incarnation, [], e, q + 1);
    TrimFaithful(OfIdentity, all, config.maxClaimsPerModule, config.maxClaimHistory, t.incarnation);
    var kept := TrimList(OfIdentity, all, config.maxClaimsPerModule, config.maxClaimHistory).value;
    AllBelow(t.claims, identity, a, t.uid, t.incarnation, s, e);
    LiveAfter(OfIdentity, t.claims, added, kept, t.incarnation, e, q, x);
    StatedClaims(identity, a, t.uid, t.incarnation, s, x);
    RecordStored(found.st, found.uid, t.(claims := all).(claims := kept), config);
  }

  lemma RecordStored(st: State, uid: nat, r: ModuleRecord, config: Config)
    ensures var next := PutModule(st, uid, Capped(r, config));
      && uid in next.modules && next.modules[uid].claims == r.claims && next.modules[uid].incarnation == r.incarnation
      && next.sources == st.sources
  {
  }

  lemma AllBelow(s: seq<IdentityClaim>, identity: seq<IdentityValue>, a: RegistryState.Authority, uid: nat,
                 incarnation: nat, stamp: Stamp, e: map<nat, nat>)
    requires ClaimsOk(s, uid, incarnation, [], e, stamp.sequence) && A.SourceIsLive(e, a.source, a.epoch)
    ensures JustAdded(s, IdentityClaims(identity, a, uid, incarnation, stamp), incarnation, e, stamp.sequence)
  {
  }

  lemma RegistrationEffect(st: State, call: Call, config: Config, next: State, x: IdentityClaim)
    requires Good(st) && call.op.RegisterModule? && Attempt(st, call, config) == Ok(next) && config.maxClaimHistory >= 1
    ensures var op := call.op; var s := StampOf(st, call);
      var uid := RegisteredUid(st, op.key); var n := RegisteredIncarnation(st, op.key, op.intent);
      && s.generation == next.generation == st.generation + 1 && s.sequence == st.nextSequence
      && s.now == call.clock.wallNs && s.provenance == op.provenance
      && uid in next.modules && next.modules[uid].incarnation == n
      && (IdentityLive(next, uid, x) <==>
          || (exists v :: v in op.identity && x == StatedBy(v, op.authority, uid, n, s))
          || (&& IdentityLive(st, uid, x) && x.incarnation == n
              && !exists v :: v in op.identity && Restates(StatedBy(v, op.authority, uid, n, s), x)))
      && (x in next.modules[uid].claims ==>
            || (exists v :: v in op.identity && x == StatedBy(v, op.authority, uid, n, s))
            || (uid in st.modules && x in st.modules[uid].claims))
  {
    hide Inv, Attempt, RegisterModuleBody, ClaimLive, Restates, StatedBy, NoRepeats;
    Begun(st, call, config, next);
    ChecksNoRepeats(call, config);
    var begun := st.(nextSequence := st.nextSequence + 1);
    RegistrationIsLive(begun, call.op.key, call.op.identity, call.op.intent, call.op.authority, config,
                       StampOf(st, call), x);
  }

  /** Every element of a committed registration's identity is what the module's identity answers. */
  lemma RegistrationIsAnswered(st: State, call: Call, config: Config, next: State, v: IdentityValue)
    requires Good(st) && call.op.RegisterModule? && Attempt(st, call, config) == Ok(next) && config.maxClaimHistory >= 1
    requires v in call.op.identity
    ensures var op := call.op;
      var uid := RegisteredUid(st, op.key); var n := RegisteredIncarnation(st, op.key, op.intent);
      && uid in next.modules && next.modules[uid].incarnation == n
      && Answered(OfIdentity, next.modules[uid].claims, n, Epochs(next.sources),
                  Claim(v.attr, v.subkey, v.value, op.authority.source, op.authority.epoch, uid, n, [],
                        st.generation + 1, st.nextSequence, call.clock.wallNs, op.provenance, true))
  {
    hide Inv, Attempt, ClaimLive, Restates, OneSubject, Orderly, Answered, RegisteredUid, RegisteredIncarnation;
    var op := call.op;
    var uid, n := RegisteredUid(st, op.key), RegisteredIncarnation(st, op.key, op.intent);
    var c := StatedBy(v, op.authority, uid, n, StampOf(st, call));
    RegistrationEffect(st, call, config, next, c);
    AttemptKeeps(st, call, config);
    ModuleLists(next, uid);
    LiveIsAnswered(OfIdentity, next.modules[uid].claims, n, Epochs(next.sources), c);
  }

  // ----- Lifecycle events -----

  /** An entry of the lifecycle history written by this call. */
  function Note(from: LifecycleState, to: LifecycleState, incarnation: nat, a: RegistryState.Authority, st: State,
                call: Call, words: Text): LifecycleEvent
  {
    LifecycleEvent(from, to, incarnation, a.source, a.epoch, st.generation + 1, st.nextSequence, call.clock.wallNs,
                   words)
  }

  /** The newest entries are kept, as many as fit. */
  predicate Retained(all: seq<LifecycleEvent>, kept: seq<LifecycleEvent>, max: nat) {
    && |kept| == (if |all| < max then |all| else max)
    && forall i :: 0 <= i < |kept| ==> kept[i] == all[|all| - |kept| + i]
  }

  lemma LastAreRetained(all: seq<LifecycleEvent>, max: nat)
    ensures Retained(all, LastEvents(all, max), max)
  {
  }

  /** The module moved: its state and the three stamps of the state, and one more entry in its history. */
  predicate Moved(before: ModuleRecord, after: ModuleRecord, to: LifecycleState, a: RegistryState.Authority, st: State,
                  call: Call, words: Text, config: Config)
  {
    && after == before.(state := to, stateGeneration := st.generation + 1, stateSequence := st.nextSequence,
                        stateWallNs := call.clock.wallNs, lifecycle := after.lifecycle)
    && Retained(before.lifecycle + [Note(before.state, to, before.incarnation, a, st, call, words)], after.lifecycle,
                config.maxLifecycleHistory)
  }

  lemma AdvancedMoves(r: ModuleRecord, to: LifecycleState, a: RegistryState.Authority, st: State, call: Call,
                      words: Text, config: Config)
    requires words == ReasonFor(to, r.incarnation, StampOf(st, call))
    ensures Moved(r, Capped(Advanced(r, to, a, StampOf(st, call)), config), to, a, st, call, words, config)
  {
    LastAreRetained(r.lifecycle + [Note(r.state, to, r.incarnation, a, st, call, words)], config.maxLifecycleHistory);
  }

  lemma GivenWords(to: LifecycleState, incarnation: nat, s: Stamp, words: Text)
    requires s.reason == Some(words)
    ensures ReasonFor(to, incarnation, s) == words
  {
    hide OwnWords, Ascii;
  }

  lemma PutBack(modules: map<nat, ModuleRecord>, uid: nat)
    requires uid in modules
    ensures modules[uid := modules[uid]] == modules
  {
  }

  /** A committed transition moves the module where the call says, by an edge of the table, and nothing else. */
  lemma TransitionEffect(st: State, call: Call, config: Config, next: State)
    requires Good(st) && call.op.Transition? && Attempt(st, call, config) == Ok(next)
    ensures var op := call.op; var uid := op.target.uid;
      && uid in st.modules && uid in next.modules && st.modules[uid].incarnation == op.target.incarnation
      && TransitionAllowed(st.modules[uid].state, op.to)
      && Moved(st.modules[uid], next.modules[uid], op.to, op.authority, st, call, op.reason, config)
      && next == Bumped(st).(modules := st.modules[uid := next.modules[uid]])
  {
    hide Inv, Attempt, Advanced, Capped, TransitionAllowed, Moved, Authorize;
    Begun(st, call, config, next);
    var begun := st.(nextSequence := st.nextSequence + 1);
    ReachedIsAuthorized(begun, call.op.authority, call.op.target);
    AdvancedMoves(st.modules[call.op.target.uid], call.op.to, call.op.authority, st, call, call.op.reason, config);
  }

  lemma ReconcileMoves(st: State, a: RegistryState.Authority, h: Handle, config: Config, clock: Clock, s: Stamp)
    requires ReconcileBody(st, a, h, config, clock, s).Ok?
    ensures h.uid in st.modules
    ensures var next := ReconcileBody(st, a, h, config, clock, s).value; var r := st.modules[h.uid];
      || next == st
      || next == PutModule(st, h.uid, Capped(Advanced(r, Active, a, s), config))
      || next == PutModule(st, h.uid, Capped(Advanced(r, Degraded, a, s), config))
  {
    hide Advanced, Capped, TransitionAllowed, Authorize, ReportOf, EvidenceOf, PutModule;
  }

  const NOMINAL: Text := Ascii("health evidence is fresh and nominal")
  const WORSENED: Text := Ascii("health evidence indicates degradation")

  lemma EvidenceWords(incarnation: nat, s: Stamp)
    requires s.reason == None
    ensures ReasonFor(Active, incarnation, s) == NOMINAL && ReasonFor(Degraded, incarnation, s) == WORSENED
  {
    hide Ascii;
  }

  lemma NoWords(st: State, call: Call)
    requires call.op.RegisterModule? || call.op.Reconcile?
    ensures StampOf(st, call).reason == None && StampOf(st, call).sequence == st.nextSequence
  {
  }

  /** The module stayed as it was or moved with the evidence. */
  predicate Reconciled(st: State, call: Call, next: State, a: RegistryState.Authority, uid: nat, config: Config) {
    && uid in st.modules && uid in next.modules
    && next == Bumped(st).(modules := st.modules[uid := next.modules[uid]])
    && (|| next.modules[uid] == st.modules[uid]
        || Moved(st.modules[uid], next.modules[uid], Active, a, st, call, NOMINAL, config)
        || Moved(st.modules[uid], next.modules[uid], Degraded, a, st, call, WORSENED, config))
  }

  lemma ReconciledFrom(st: State, call: Call, next: State, a: RegistryState.Authority, h: Handle, config: Config,
                       s: Stamp)
    requires s == StampOf(st, call) && s.reason == None && h.uid in st.modules
    requires var r := st.modules[h.uid];
      || next == Bumped(st)
      || next == Bumped(st).(modules := st.modules[h.uid := Capped(Advanced(r, Active, a, s), config)])
      || next == Bumped(st).(modules := st.modules[h.uid := Capped(Advanced(r, Degraded, a, s), config)])
    ensures Reconciled(st, call, next, a, h.uid, config)
  {
    hide Advanced, Capped, Moved, ReasonFor, NOMINAL, WORSENED;
    var r := st.modules[h.uid];
    PutBack(st.modules, h.uid);
    EvidenceWords(r.incarnation, s);
    AdvancedMoves(r, Active, a, st, call, NOMINAL, config);
    AdvancedMoves(r, Degraded, a, st, call, WORSENED, config);
  }

  /** Reconciliation leaves the module alone or writes down which way the evidence pointed. */
  lemma ReconcileEffect(st: State, call: Call, config: Config, next: State)
    requires Good(st) && call.op.Reconcile? && Attempt(st, call, config) == Ok(next)
    ensures Reconciled(st, call, next, call.op.authority, call.op.target.uid, config)
  {
    hide Inv, Attempt, Reconciled, Advanced, Capped, StampOf, RegisterSourceBody, RegisterModuleBody,
         UpdateIdentityBody, PublishCapabilityBody, PublishPortCapabilityBody, AttachBody, DetachBody, IngestBody,
         PublishThresholdBody, PublishRuleBody, RetireRuleBody, TransitionBody, ReconcileBody;
    NoWords(st, call);
    Begun(st, call, config, next);
    ReconcileMoves(st.(nextSequence := st.nextSequence + 1), call.op.authority, call.op.target, config, call.clock,
                   StampOf(st, call));
    ReconciledFrom(st, call, next, call.op.authority, call.op.target, config, StampOf(st, call));
  }

  // ----- What a registration leaves -----

  const OBSERVED: Text := Ascii("module key observed for the first time")
  const REPLACED: Text := Ascii("a new physical module incarnation was registered for this module key")
  const DISCOVERED: Text := Ascii("new module incarnation discovered")
  const REGISTERED: Text := Ascii("module identity registered")

  lemma RegistrationWords(incarnation: nat, s: Stamp)
    requires s.reason == None
    ensures ReasonFor(Discovered, incarnation, s) == (if incarnation == 1 then OBSERVED else DISCOVERED)
    ensures ReasonFor(Registered, incarnation, s) == REGISTERED && ReasonFor(Replaced, incarnation, s) == REPLACED
  {
    hide Ascii;
  }

  /** The record a registration leaves, given the one it found or made and the history up to there. */
  predicate RegisteredFrom(before: ModuleRecord, after: ModuleRecord, history: seq<LifecycleEvent>,
                           a: RegistryState.Authority, st: State, call: Call, config: Config)
  {
    if before.state == Discovered then
      && after == before.(state := Registered, stateGeneration := st.generation + 1,
                          stateSequence := st.nextSequence, stateWallNs := call.clock.wallNs,
                          claims := after.claims, lifecycle := after.lifecycle)
      && Retained(history + [Note(Discovered, Registered, before.incarnation, a, st, call, REGISTERED)],
                  after.lifecycle, config.maxLifecycleHistory)
    else
      && after == before.(claims := after.claims, lifecycle := after.lifecycle)
      && Retained(history, after.lifecycle, config.maxLifecycleHistory)
  }

  lemma RegistersFrom(r: ModuleRecord, claims: seq<IdentityClaim>, a: RegistryState.Authority, st: State, call: Call,
                      s: Stamp, config: Config)
    requires s == StampOf(st, call) && s.reason == None
    ensures RegisteredFrom(r, Capped(EnsureRegistered(r, a, s).(claims := claims), config), r.lifecycle, a, st, call,
                           config)
  {
    hide ReasonFor, REGISTERED, Retained, LastEvents;
    RegistrationWords(r.incarnation, s);
    LastAreRetained(EnsureRegistered(r, a, s).lifecycle, config.maxLifecycleHistory);
  }

  lemma RegistrationParts(st: State, key: Text, identity: seq<IdentityValue>, intent: Intent,
                          a: RegistryState.Authority, config: Config, s: Stamp)
    requires RegisterModuleBody(st, key, identity, intent, a, config, s).Ok?
    ensures OpenModule(st, key, intent, a, config, s).Ok?
    ensures var found := OpenModule(st, key, intent, a, config, s).value;
      var next := RegisterModuleBody(st, key, identity, intent, a, config, s).value;
      && found.uid in found.st.modules && found.uid in next.modules
      && var r := found.st.modules[found.uid];
         && next.modules[found.uid]
            == Capped(EnsureRegistered(r, a, s).(claims := next.modules[found.uid].claims), config)
         && next == found.st.(modules := found.st.modules[found.uid := next.modules[found.uid]])
  {
    hide OpenModule, EnsureRegistered, IdentityClaims, TrimList, LastEvents, Authorize;
  }

  /** A key seen for the first time gets the next uid and its first incarnation, with both steps in its history. */
  predicate FirstSeen(st: State, call: Call, next: State, key: Text, a: RegistryState.Authority, config: Config) {
    var uid := st.nextModuleUid; var g, q, now := st.generation + 1, st.nextSequence, call.clock.wallNs;
    && uid in next.modules
    && next == Bumped(st).(nextModuleUid := uid + 1, moduleUidByKey := st.moduleUidByKey[key := uid],
                           modules := st.modules[uid := next.modules[uid]])
    && RegisteredFrom(ModuleRecord(key, uid, 1, Discovered, g, q, now, g, q, now, 0, 1, [], [], [], [], [], map[]),
                      next.modules[uid], [Note(Discovered, Discovered, 1, a, st, call, OBSERVED)], a, st, call, config)
  }

  lemma FirstRegistration(st: State, call: Call, config: Config, next: State)
    requires Good(st) && call.op.RegisterModule? && Attempt(st, call, config) == Ok(next)
    requires call.op.key !in st.moduleUidByKey
    ensures FirstSeen(st, call, next, call.op.key, call.op.authority, config)
  {
    hide Inv, Attempt, FirstSeen, StampOf, RegisterSourceBody, RegisterModuleBody, UpdateIdentityBody,
         PublishCapabilityBody, PublishPortCapabilityBody, AttachBody, DetachBody, IngestBody, PublishThresholdBody,
         PublishRuleBody, RetireRuleBody, TransitionBody, ReconcileBody;
    NoWords(st, call);
    Begun(st, call, config, next);
    var op, s := call.op, StampOf(st, call);
    FirstSeenFrom(st, call, next, op.key, op.identity, op.intent, op.authority, config, s);
  }

  lemma FirstSeenFrom(st: State, call: Call, next: State, key: Text, identity: seq<IdentityValue>, intent: Intent,
                      a: RegistryState.Authority, config: Config, s: Stamp)
    requires s == StampOf(st, call) && s.reason == None && key !in st.moduleUidByKey
    requires var r := RegisterModuleBody(st.(nextSequence := st.nextSequence + 1), key, identity, intent, a, config, s);
      r.Ok? && next == r.value.(generation := st.generation + 1, mutations := st.mutations + 1)
    ensures FirstSeen(st, call, next, key, a, config)
  {
    hide ReasonFor, RegisterModuleBody, OBSERVED, REGISTERED, Retained, Capped, EnsureRegistered;
    var begun, uid := st.(nextSequence := st.nextSequence + 1), st.nextModuleUid;
    RegistrationParts(begun, key, identity, intent, a, config, s);
    RegistrationWords(1, s);
    RegistersFrom(NewModule(key, uid, a, s), next.modules[uid].claims, a, st, call, s, config);
  }

  /** A known module still there is registered if it was only discovered; its incarnation stays. */
  predicate SeenAgain(st: State, call: Call, next: State, uid: nat, a: RegistryState.Authority, config: Config) {
    && uid in st.modules && uid in next.modules
    && st.modules[uid].state != Replaced && st.modules[uid].state != Retired
    && next == Bumped(st).(modules := st.modules[uid := next.modules[uid]])
    && RegisteredFrom(st.modules[uid], next.modules[uid], st.modules[uid].lifecycle, a, st, call, config)
  }

  lemma RepeatedRegistration(st: State, call: Call, config: Config, next: State)
    requires Good(st) && call.op.RegisterModule? && Attempt(st, call, config) == Ok(next)
    requires call.op.key in st.moduleUidByKey && call.op.intent == EnsureCurrent
    ensures SeenAgain(st, call, next, st.moduleUidByKey[call.op.key], call.op.authority, config)
  {
    hide Inv, Attempt, SeenAgain, StampOf, RegisterSourceBody, RegisterModuleBody, UpdateIdentityBody,
         PublishCapabilityBody, PublishPortCapabilityBody, AttachBody, DetachBody, IngestBody, PublishThresholdBody,
         PublishRuleBody, RetireRuleBody, TransitionBody, ReconcileBody;
    NoWords(st, call);
    Begun(st, call, config, next);
    SeenAgainFrom(st, call, next, call.op.key, call.op.identity, call.op.authority, config, StampOf(st, call));
  }

  lemma SeenAgainFrom(st: State, call: Call, next: State, key: Text, identity: seq<IdentityValue>,
                      a: RegistryState.Authority, config: Config, s: Stamp)
    requires s == StampOf(st, call) && s.reason == None && key in st.moduleUidByKey
    requires var begun := st.(nextSequence := st.nextSequence + 1);
      var r := RegisterModuleBody(begun, key, identity, EnsureCurrent, a, config, s);
      r.Ok? && next == r.value.(generation := st.generation + 1, mutations := st.mutations + 1)
    ensures SeenAgain(st, call, next, st.moduleUidByKey[key], a, config)
  {
    hide ReasonFor, RegisterModuleBody, Capped, EnsureRegistered, RegisteredFrom;
    var begun, uid := st.(nextSequence := st.nextSequence + 1), st.moduleUidByKey[key];
    RegistrationParts(begun, key, identity, EnsureCurrent, a, config, s);
    RegistersFrom(st.modules[uid], next.modules[uid].claims, a, st, call, s, config);
  }

  /**
   * A new incarnation under a known key: the module that was there is replaced and leaves every slot, unless it had
   * gone, and the next incarnation is discovered and registered, without latches and fenced from here on.
   */
  predicate NewlySeen(st: State, call: Call, next: State, uid: nat, a: RegistryState.Authority, config: Config) {
    && uid in st.modules && uid in next.modules
    && var r := st.modules[uid]; var n := r.incarnation + 1;
       var gone := r.state == Replaced || r.state == Retired;
       && next == Bumped(st).(modules := st.modules[uid := next.modules[uid]],
                              attachments := map slot | slot in st.attachments ::
                                if !gone && st.attachments[slot].live && st.attachments[slot].uid == uid
                                then st.attachments[slot].(live := false) else st.attachments[slot])
       && RegisteredFrom(r.(incarnation := n, incarnationCount := r.incarnationCount + 1, state := Discovered,
                            fencedGeneration := st.generation + 1, latches := []),
                         next.modules[uid],
                         r.lifecycle
                         + (if gone then [] else [Note(r.state, Replaced, r.incarnation, a, st, call, REPLACED)])
                         + [Note(Discovered, Discovered, n, a, st, call, DISCOVERED)],
                         a, st, call, config)
  }

  lemma NewIncarnationRegistration(st: State, call: Call, config: Config, next: State)
    requires Good(st) && call.op.RegisterModule? && Attempt(st, call, config) == Ok(next)
    requires call.op.key in st.moduleUidByKey && call.op.intent == NewIncarnation
    ensures NewlySeen(st, call, next, st.moduleUidByKey[call.op.key], call.op.authority, config)
  {
    hide Inv, Attempt, NewlySeen, StampOf, Capped, EnsureRegistered, NextIncarnation, DetachAll, Gone,
         RegisterSourceBody, RegisterModuleBody, UpdateIdentityBody, PublishCapabilityBody, PublishPortCapabilityBody,
         AttachBody, DetachBody, IngestBody, PublishThresholdBody, PublishRuleBody, RetireRuleBody, TransitionBody,
         ReconcileBody;
    NoWords(st, call);
    Begun(st, call, config, next);
    var begun, key, s := Opening(st), call.op.key, StampOf(st, call);
    var uid := st.moduleUidByKey[key];
    KnownIncarnation(begun, key, st.nextSequence);
    NewParts(begun, key, call.op.identity, call.op.authority, config, s);
    NewlySeenFrom(st, call, next, uid, call.op.authority, config, s, next.modules[uid].claims);
  }

  lemma NextIs(r: ModuleRecord, a: RegistryState.Authority, st: State, call: Call, s: Stamp)
    requires s == StampOf(st, call) && s.reason == None && r.incarnation >= 1 && NextIncarnation(r, a, s).Ok?
    ensures var n := r.incarnation + 1; var gone := r.state == Replaced || r.state == Retired;
      NextIncarnation(r, a, s).value ==
      r.(incarnation := n, incarnationCount := r.incarnationCount + 1, state := Discovered,
         fencedGeneration := st.generation + 1, latches := [],
         lifecycle := r.lifecycle
                      + (if gone then [] else [Note(r.state, Replaced, r.incarnation, a, st, call, REPLACED)])
                      + [Note(Discovered, Discovered, n, a, st, call, DISCOVERED)])
  {
    hide ReasonFor, REPLACED, DISCOVERED;
    RegistrationWords(r.incarnation, s);
    RegistrationWords(r.incarnation + 1, s);
  }

  lemma NewParts(st: State, key: Text, identity: seq<IdentityValue>, a: RegistryState.Authority, config: Config,
                 s: Stamp)
    requires Inv(st, s.sequence) && key in st.moduleUidByKey && st.moduleUidByKey[key] in st.modules
    requires RegisterModuleBody(st, key, identity, NewIncarnation, a, config, s).Ok?
    ensures var uid := st.moduleUidByKey[key]; var r := st.modules[uid]; var left := NextIncarnation(r, a, s);
      var next := RegisterModuleBody(st, key, identity, NewIncarnation, a, config, s).value;
      && left.Ok? && uid in next.modules
      && next.modules[uid] == Capped(EnsureRegistered(left.value, a, s).(claims := next.modules[uid].claims), config)
      && next == st.(modules := st.modules[uid := next.modules[uid]],
                     attachments := if Gone(r.state) then st.attachments else DetachAll(st.attachments, uid))
  {
    RegistrationParts(st, key, identity, NewIncarnation, a, config, s);
    var uid := st.moduleUidByKey[key];
    RecordUidIs(st, uid, s.sequence);
    hide Inv, RegisterModuleBody, Capped, EnsureRegistered, DetachAll, Gone, NextIncarnation;
    PutTwice(st.modules, uid, NextIncarnation(st.modules[uid], a, s).value,
             RegisterModuleBody(st, key, identity, NewIncarnation, a, config, s).value.modules[uid]);
  }

  lemma NewlySeenFrom(st: State, call: Call, next: State, uid: nat, a: RegistryState.Authority, config: Config,
                      s: Stamp, claims: seq<IdentityClaim>)
    requires s == StampOf(st, call) && s.reason == None && uid in st.modules && st.modules[uid].incarnation >= 1
    requires NextIncarnation(st.modules[uid], a, s).Ok?
    requires var r := st.modules[uid];
      var t := Capped(EnsureRegistered(NextIncarnation(r, a, s).value, a, s).(claims := claims), config);
      next == Bumped(st).(modules := st.modules[uid := t],
                          attachments := if Gone(r.state) then st.attachments else DetachAll(st.attachments, uid))
    ensures NewlySeen(st, call, next, uid, a, config)
  {
    hide ReasonFor, Capped, EnsureRegistered, Retained, NextIncarnation, REPLACED, DISCOVERED, REGISTERED,
         DetachAll, RegisteredFrom;
    var r := st.modules[uid];
    NextIs(r, a, st, call, s);
    var left := NextIncarnation(r, a, s).value;
    RegistersFrom(left, claims, a, st, call, s, config);
    WhateverItsHistory(left, r.lifecycle, next.modules[uid], left.lifecycle, a, st, call, config);
    SlotsLeft(st.attachments, uid, r.state == Replaced || r.state == Retired);
  }

  lemma WhateverItsHistory(before: ModuleRecord, past: seq<LifecycleEvent>, after: ModuleRecord,
                           history: seq<LifecycleEvent>, a: RegistryState.Authority, st: State, call: Call,
                           config: Config)
    requires RegisteredFrom(before, after, history, a, st, call, config)
    ensures RegisteredFrom(before.(lifecycle := past), after, history, a, st, call, config)
  {
    hide Retained, Note, REGISTERED;
  }

  lemma PutTwice(modules: map<nat, ModuleRecord>, uid: nat, a: ModuleRecord, b: ModuleRecord)
    ensures modules[uid := a][uid := b] == modules[uid := b]
  {
  }

  lemma SlotsLeft(attachments: map<Text, AttachmentRecord>, uid: nat, gone: bool)
    ensures (if gone then attachments else DetachAll(attachments, uid))
            == map slot | slot in attachments ::
                 if !gone && attachments[slot].live && attachments[slot].uid == uid
                 then attachments[slot].(live := false) else attachments[slot]
  {
  }

  lemma KnownIncarnation(st: State, key: Text, n: nat)
    requires Inv(st, n) && key in st.moduleUidByKey
    ensures st.moduleUidByKey[key] in st.modules && st.modules[st.moduleUidByKey[key]].incarnation >= 1
  {
    ModuleFound(st, key, n);
  }

  // ----- Slots -----

  lemma AttachBodyFills(st: State, a: RegistryState.Authority, h: Handle, slot: Text, portIndex: nat, config: Config,
                        s: Stamp)
    requires Inv(st, s.sequence) && AttachBody(st, a, h, slot, portIndex, config, s).Ok?
    ensures h.uid in st.modules && st.modules[h.uid].incarnation == h.incarnation
    ensures var next := AttachBody(st, a, h, slot, portIndex, config, s).value; var r := st.modules[h.uid];
      if && slot in st.attachments && st.attachments[slot].live && st.attachments[slot].uid == h.uid
         && st.attachments[slot].incarnation == h.incarnation
      then next == st
      else
        next == st.(modules := st.modules[h.uid := if r.state == Attached then r
                                                   else Capped(Advanced(r, Attached, a, s), config)],
                    attachments := st.attachments[slot :=
                      AttachmentRecord(slot, portIndex, h.uid, h.incarnation, a.source, a.epoch, s.generation,
                                       s.sequence, s.now, true)])
  {
    hide Inv, Advanced, Capped, TransitionAllowed, Authorize, LiveSlots;
    RecordUidIs(st, h.uid, s.sequence) by { ReachedIsAuthorized(st, a, h); }
  }

  lemma SlotWords(st: State, call: Call)
    requires call.op.Attach? || call.op.Detach?
    ensures StampOf(st, call).reason ==
            Some(Ascii(if call.op.Attach? then "module attached to slot " else "module detached from slot ")
                 + call.op.slot)
  {
    hide Ascii;
  }

  /** The slot already held this incarnation. */
  predicate AlreadyIn(st: State, slot: Text, h: Handle) {
    && slot in st.attachments && st.attachments[slot].live
    && st.attachments[slot].uid == h.uid && st.attachments[slot].incarnation == h.incarnation
  }

  /** The slot was filled, and the module moved to Attached unless it was there. */
  predicate Filled(st: State, call: Call, next: State, a: RegistryState.Authority, h: Handle, slot: Text,
                   portIndex: nat, config: Config)
  {
    && h.uid in st.modules && h.uid in next.modules && st.modules[h.uid].incarnation == h.incarnation
    && next == Bumped(st).(modules := st.modules[h.uid := next.modules[h.uid]],
                           attachments := st.attachments[slot :=
                             AttachmentRecord(slot, portIndex, h.uid, h.incarnation, a.source, a.epoch,
                                              st.generation + 1, st.nextSequence, call.clock.wallNs, true)])
    && if st.modules[h.uid].state == Attached then next.modules[h.uid] == st.modules[h.uid]
       else Moved(st.modules[h.uid], next.modules[h.uid], Attached, a, st, call,
                  Ascii("module attached to slot ") + slot, config)
  }

  lemma FilledFrom(st: State, call: Call, next: State, a: RegistryState.Authority, h: Handle, slot: Text,
                   portIndex: nat, config: Config, s: Stamp)
    requires s == StampOf(st, call) && s.reason == Some(Ascii("module attached to slot ") + slot)
    requires Inv(st.(nextSequence := st.nextSequence + 1), st.nextSequence)
    requires var r := AttachBody(st.(nextSequence := st.nextSequence + 1), a, h, slot, portIndex, config, s);
      r.Ok? && next == r.value.(generation := st.generation + 1, mutations := st.mutations + 1)
    ensures if AlreadyIn(st, slot, h) then next == Bumped(st)
            else Filled(st, call, next, a, h, slot, portIndex, config)
  {
    hide Inv, Advanced, Capped, Moved, ReasonFor, Ascii, AttachBody;
    AttachBodyFills(st.(nextSequence := st.nextSequence + 1), a, h, slot, portIndex, config, s);
    var words := Ascii("module attached to slot ") + slot;
    GivenWords(Attached, st.modules[h.uid].incarnation, s, words);
    AdvancedMoves(st.modules[h.uid], Attached, a, st, call, words, config);
  }

  /**
   * A committed attach either finds the module already there and changes nothing but the counters, or fills the slot
   * and moves the module to Attached unless it is.
   */
  lemma AttachFills(st: State, call: Call, config: Config, next: State)
    requires Good(st) && call.op.Attach? && Attempt(st, call, config) == Ok(next)
    ensures if AlreadyIn(st, call.op.slot, call.op.target) then next == Bumped(st)
            else Filled(st, call, next, call.op.authority, call.op.target, call.op.slot, call.op.portIndex, config)
  {
    hide Inv, Attempt, Filled, AlreadyIn, StampOf, Ascii, RegisterSourceBody, RegisterModuleBody,
         UpdateIdentityBody, PublishCapabilityBody, PublishPortCapabilityBody, AttachBody, DetachBody, IngestBody,
         PublishThresholdBody, PublishRuleBody, RetireRuleBody, TransitionBody, ReconcileBody;
    SlotWords(st, call);
    Begun(st, call, config, next);
    var op := call.op;
    FilledFrom(st, call, next, op.authority, op.target, op.slot, op.portIndex, config, StampOf(st, call));
  }

  /** The slot is free, and a module that counted as attached through it has moved to Removed. */
  predicate Freed(st: State, call: Call, next: State, a: RegistryState.Authority, slot: Text, config: Config) {
    && slot in st.attachments && st.attachments[slot].live
    && var uid := st.attachments[slot].uid;
       && uid in st.modules && uid in next.modules
       && next == Bumped(st).(modules := st.modules[uid := next.modules[uid]],
                              attachments := st.attachments[slot := st.attachments[slot].(live := false)])
       && if st.modules[uid].incarnation == st.attachments[slot].incarnation
             && ImpliesAttachment(st.modules[uid].state)
          then Moved(st.modules[uid], next.modules[uid], Removed, a, st, call,
                     Ascii("module detached from slot ") + slot, config)
          else next.modules[uid] == st.modules[uid]
  }

  lemma DetachBodyFrees(st: State, a: RegistryState.Authority, slot: Text, config: Config, s: Stamp)
    requires Inv(st, s.sequence) && DetachBody(st, a, slot, config, s).Ok?
    ensures slot in st.attachments && st.attachments[slot].live && st.attachments[slot].uid in st.modules
    ensures var uid := st.attachments[slot].uid; var r := st.modules[uid];
      DetachBody(st, a, slot, config, s).value ==
      st.(modules := st.modules[uid := if r.incarnation == st.attachments[slot].incarnation
                                          && ImpliesAttachment(r.state)
                                       then Capped(Advanced(r, Removed, a, s), config) else r],
          attachments := st.attachments[slot := st.attachments[slot].(live := false)])
  {
    hide Inv, Advanced, Capped, TransitionAllowed, Authorize, ImpliesAttachment;
    SlotNamesModule(st, slot, s.sequence);
    PutBack(st.modules, st.attachments[slot].uid);
  }

  lemma FreedFrom(st: State, call: Call, next: State, a: RegistryState.Authority, slot: Text, config: Config, s: Stamp,
                  after: ModuleRecord)
    requires s == StampOf(st, call) && s.reason == Some(Ascii("module detached from slot ") + slot)
    requires slot in st.attachments && st.attachments[slot].live && st.attachments[slot].uid in st.modules
    requires var r := st.modules[st.attachments[slot].uid];
      after == if r.incarnation == st.attachments[slot].incarnation && ImpliesAttachment(r.state)
               then Capped(Advanced(r, Removed, a, s), config) else r
    requires next == Bumped(st).(modules := st.modules[st.attachments[slot].uid := after],
                                 attachments := st.attachments[slot := st.attachments[slot].(live := false)])
    ensures Freed(st, call, next, a, slot, config)
  {
    hide Advanced, Capped, Moved, ReasonFor, Ascii, ImpliesAttachment;
    var r, words := st.modules[st.attachments[slot].uid], Ascii("module detached from slot ") + slot;
    GivenWords(Removed, r.incarnation, s, words);
    AdvancedMoves(r, Removed, a, st, call, words, config);
  }

  /** A committed detach frees its slot and nothing else. */
  lemma DetachFrees(st: State, call: Call, config: Config, next: State)
    requires Good(st) && call.op.Detach? && Attempt(st, call, config) == Ok(next)
    ensures Freed(st, call, next, call.op.authority, call.op.slot, config)
  {
    hide Inv, Attempt, Freed, StampOf, Ascii, Advanced, Capped, ImpliesAttachment, RegisterSourceBody,
         RegisterModuleBody, UpdateIdentityBody, PublishCapabilityBody, PublishPortCapabilityBody, AttachBody,
         DetachBody, IngestBody, PublishThresholdBody, PublishRuleBody, RetireRuleBody, TransitionBody, ReconcileBody;
    SlotWords(st, call);
    Begun(st, call, config, next);
    var begun, s := st.(nextSequence := st.nextSequence + 1), StampOf(st, call);
    var a, slot := call.op.authority, call.op.slot;
    SequenceOf(st, call);
    DetachBodyFrees(begun, a, slot, config, s);
    FreedFrom(st, call, next, a, slot, config, s, next.modules[st.attachments[slot].uid]);
  }

  lemma SequenceOf(st: State, call: Call)
    ensures StampOf(st, call).sequence == st.nextSequence
  {
  }

  lemma SlotNamesModule(st: State, slot: Text, n: nat)
    requires Inv(st, n) && slot in st.attachments
    ensures st.attachments[slot].uid in st.modules
  {
    hide RecordsOk, PortsOk, ThresholdsOk, RulesOk, SourcesOk, ModuleIndexOk;
  }

  // ----- Samples -----

  /**
   * The observation an accepted sample is stored as: missing times are filled in, and only a measurement has a value.
   */
  function StoredAs(st: State, call: Call): HealthSample
    requires call.op.IngestHealth?
  {
    var i, clock, a := call.op.input, call.clock, call.op.authority;
    var domain := if i.clockDomain == 0 then clock.domain else i.clockDomain;
    HealthSample(i.metric, i.lane, i.presence, if i.presence == Present then i.value else 0.0,
                 if i.wallNs == 0 then clock.wallNs else i.wallNs,
                 if i.monotonicNs == 0 && (i.clockDomain == 0 || i.clockDomain == clock.domain) then clock.monotonicNs
                 else i.monotonicNs,
                 domain, a.source, a.epoch, call.op.target.uid, call.op.target.incarnation, st.generation + 1,
                 st.nextSequence, i.provenance, true)
  }

  /** The observation another one of its source, series and clock domain is no newer than. */
  predicate NotAfter(x: HealthSample, stored: HealthSample) {
    && stored.source == x.source && stored.metric == x.metric && stored.lane == x.lane
    && stored.clockDomain == x.clockDomain
    && x.monotonicNs != 0 && x.monotonicNs <= stored.monotonicNs
  }

  /**
   * A committed ingest adds the observation to its module, later than everything its source reported in that clock
   * domain, and bounds the samples; only the latches move beside it.
   */
  lemma IngestEffect(st: State, call: Call, config: Config, next: State)
    requires Good(st) && call.op.IngestHealth? && Attempt(st, call, config) == Ok(next)
    ensures var uid := call.op.target.uid; var x := StoredAs(st, call);
      && uid in st.modules && uid in next.modules
      && var before, after := st.modules[uid], next.modules[uid];
         && after == before.(samples := after.samples, seriesCounts := after.seriesCounts, latches := after.latches)
         && next == Bumped(st).(modules := st.modules[uid := after], droppedSamples := next.droppedSamples)
         && (forall y :: y in before.samples ==> !NotAfter(x, y))
         && next.droppedSamples >= st.droppedSamples
         && TrimRing(Ring(before.samples + [x],
                          before.seriesCounts[SampleSeries(x) := CountOf(before.seriesCounts, SampleSeries(x)) + 1], 0),
                     config.maxSamplesPerSeries, config.maxSamplesPerModule)
            == Ring(after.samples, after.seriesCounts, next.droppedSamples - st.droppedSamples)
  {
    hide Inv, Attempt, TrimRing, AdvanceSeries, SelectedThreshold, LiveThresholds, Authorize;
    Begun(st, call, config, next);
    var begun := st.(nextSequence := st.nextSequence + 1);
    ReachedIsAuthorized(begun, call.op.authority, call.op.target);
    RecordUidIs(begun, call.op.target.uid, st.nextSequence);
    var before := st.modules[call.op.target.uid];
    var x := StoredAs(st, call);
    assert x == StoredSample(call.op.input, before, call.op.authority, call.clock, StampOf(st, call));
    forall y | y in before.samples ensures !NotAfter(x, y) {
      var i :| 0 <= i < |before.samples| && before.samples[i] == y;
      assert x.monotonicNs != 0 ==> !Replays(before.samples[i], x);
    }
  }

  /** An ingest let in is refused exactly when its source reported something as new already, by the same clock. */
  lemma ReplayExactly(st: State, call: Call, config: Config)
    requires Good(st) && call.op.IngestHealth? && Refusals.LetIn(st, call, config)
    ensures call.op.target.uid in st.modules
    ensures var answer := Attempt(st, call, config);
      && (answer == Err(Refused) <==>
          exists y :: y in st.modules[call.op.target.uid].samples && NotAfter(StoredAs(st, call), y))
      && (answer.Err? ==> answer == Err(Refused))
  {
    Refusals.ThroughTheDoor(st, call, config);
    Refusals.ReachedAt(st, call);
    RecordUidIs(st, call.op.target.uid, st.nextSequence);
    var before, x := st.modules[call.op.target.uid], StoredAs(st, call);
    SameStored(st, call, before);
    ReplayedExactly(before.samples, x);
    hide Inv, Attempt, TrimRing, AdvanceSeries, SelectedThreshold, LiveThresholds, Authorize, ModuleAt, CheckCall,
         StaleCall, Replayed, NotAfter, StoredSample, StoredAs, RegisterSourceBody, RegisterModuleBody,
         UpdateIdentityBody, PublishCapabilityBody, PublishPortCapabilityBody, AttachBody, DetachBody,
         PublishThresholdBody, PublishRuleBody, RetireRuleBody, TransitionBody, ReconcileBody;
  }

  lemma SameStored(st: State, call: Call, r: ModuleRecord)
    requires call.op.IngestHealth? && r.uid == call.op.target.uid && r.incarnation == call.op.target.incarnation
    ensures StoredSample(call.op.input, r, call.op.authority, call.clock, StampOf(st, call)) == StoredAs(st, call)
  {
  }

  lemma ReplayedExactly(samples: seq<HealthSample>, x: HealthSample)
    ensures Replayed(samples, x) <==> exists y :: y in samples && NotAfter(x, y)
  {
    if y :| y in samples && NotAfter(x, y) {
      var i :| 0 <= i < |samples| && samples[i] == y;
      assert Replays(samples[i], x);
    }
    if Replayed(samples, x) {
      var i :| 0 <= i < |samples| && Replays(samples[i], x);
      assert NotAfter(x, samples[i]);
    }
  }

  // ----- Sources, thresholds and rules -----

  /** A source registers under a new id, with its first epoch. */
  lemma NewSourceEffect(st: State, call: Call, config: Config, next: State)
    requires Good(st) && call.op.RegisterSource? && Attempt(st, call, config) == Ok(next)
    requires call.op.name !in st.sourceIdByName
    ensures var op := call.op; var id := st.nextSourceId;
      && id !in st.sources
      && next == Bumped(st).(nextSourceId := id + 1, sourceIdByName := st.sourceIdByName[op.name := id],
                             sources := st.sources[id := SourceRecord(id, op.name, 1, op.instanceId, op.description,
                                                                      st.generation + 1, st.nextSequence,
                                                                      call.clock.wallNs)])
  {
    hide Inv, Attempt, SourcesOk;
    Begun(st, call, config, next);
    SourceIdIsNew(st);
  }

  lemma SourceIdIsNew(st: State)
    requires Good(st)
    ensures st.nextSourceId !in st.sources
  {
    hide RecordsOk, PortsOk, ThresholdsOk, RulesOk, ModuleIndexOk, AttachmentsOk;
  }

  /** A known source registers anew under its own id, with the epoch its instance id calls for. */
  lemma KnownSourceEffect(st: State, call: Call, config: Config, next: State)
    requires Good(st) && call.op.RegisterSource? && Attempt(st, call, config) == Ok(next)
    requires call.op.name in st.sourceIdByName
    ensures var op := call.op; var id := st.sourceIdByName[op.name];
      && id in st.sources
      && var epoch := if op.instanceId != [] && op.instanceId == st.sources[id].instanceId then st.sources[id].epoch
                      else st.sources[id].epoch + 1;
         next == Bumped(st).(sources := st.sources[id := SourceRecord(id, op.name, epoch, op.instanceId, op.description,
                                                                      st.generation + 1, st.nextSequence,
                                                                      call.clock.wallNs)])
  {
    hide Inv, Attempt;
    Begun(st, call, config, next);
    SourceFound(st, call.op.name, st.nextSequence);
  }

  /**
   * A published threshold is live with the authority and the stamps of the call; its predecessors are retired, one of
   * them at most forgotten, and every threshold of another series stays as it was.
   */
  lemma ThresholdEffect(st: State, call: Call, config: Config, next: State, r: ThresholdRecord)
    requires Good(st) && call.op.PublishThreshold? && Attempt(st, call, config) == Ok(next)
    ensures var t, a := call.op.threshold, call.op.authority;
      var published := t.(source := a.source, epoch := a.epoch, generation := st.generation + 1,
                          sequence := st.nextSequence, live := true);
      && next == Bumped(st).(thresholds := next.thresholds)
      && |st.thresholds| <= |next.thresholds| <= |st.thresholds| + 1
      && SelectedThreshold(LiveThresholds(next.thresholds), t.metric, t.lane) == Some(published)
      && (r.threshold.metric != t.metric || r.threshold.lane != t.lane ==>
            (r in next.thresholds <==> r in st.thresholds))
      && (r.threshold.metric == t.metric && r.threshold.lane == t.lane && r in next.thresholds ==>
            || r == ThresholdRecord(published, true)
            || (!r.live && (r in st.thresholds || r.(live := true) in st.thresholds)))
  {
    hide Inv, Attempt, PublishThresholdBody, LiveThresholds, SelectedThreshold;
    Begun(st, call, config, next);
    var begun := st.(nextSequence := st.nextSequence + 1);
    var s := StampOf(st, call);
    PublishedIsSelected(begun, call.op.authority, call.op.threshold, config, s);
    ThresholdMembers(begun, call.op.authority, call.op.threshold, config, s, r);
  }

  /** What a publication makes of an older entry. */
  function RetiredBy(r: ThresholdRecord, t: Threshold): ThresholdRecord {
    if r.threshold.metric == t.metric && r.threshold.lane == t.lane then r.(live := false) else r
  }

  /** The entry at i is the first of the series of t. */
  ghost predicate OldestAt(ts: seq<ThresholdRecord>, t: Threshold, i: nat) {
    && i < |ts| && SameSubject(ts[i].threshold, t)
    && forall j :: 0 <= j < i ==> !SameSubject(ts[j].threshold, t)
  }

  /** The table after a publication, entry by entry: if one is forgotten it is the oldest of the series published. */
  lemma OldestIsForgotten(st: State, call: Call, config: Config, next: State)
    requires Good(st) && call.op.PublishThreshold? && Attempt(st, call, config) == Ok(next)
    ensures ThresholdsFrom(st.thresholds, next.thresholds, call.op.threshold, config.maxClaimHistory)
  {
    hide Inv, Attempt, PublishThresholdBody, ThresholdsFrom;
    Begun(st, call, config, next);
    ForgottenBody(st.(nextSequence := st.nextSequence + 1), call.op.authority, call.op.threshold, config,
                  StampOf(st, call));
  }

  ghost predicate ThresholdsFrom(before: seq<ThresholdRecord>, after: seq<ThresholdRecord>, t: Threshold, max: nat) {
    && after != []
    && (|after| == |before| + 1 ==> forall k :: 0 <= k < |before| ==> after[k] == RetiredBy(before[k], t))
    && (|after| != |before| + 1 ==>
          exists i: nat ::
            && OldestAt(before, t, i) && |after| == |before|
            && forall k :: 0 <= k < |before| - 1 ==> after[k] == RetiredBy(before[if k < i then k else k + 1], t))
  }

  lemma ForgottenBody(st: State, a: RegistryState.Authority, t: Threshold, config: Config, s: Stamp)
    requires PublishThresholdBody(st, a, t, config, s).Ok?
    ensures ThresholdsFrom(st.thresholds, PublishThresholdBody(st, a, t, config, s).value.thresholds, t,
                           config.maxClaimHistory)
  {
    hide Authorize, LiveThresholds, HistoryOf, FirstRetired;
    var before := st.thresholds;
    var published := t.(source := a.source, epoch := a.epoch, generation := s.generation, sequence := s.sequence,
                        live := true);
    var all := Retire(before, t) + [ThresholdRecord(published, true)];
    var i := FirstRetired(all, t);
    var after := PublishThresholdBody(st, a, t, config, s).value.thresholds;
    forall k | 0 <= k < |before| ensures all[k] == RetiredBy(before[k], t) {
    }
    hide Retire;
    if |after| != |before| + 1 {
      assert all[|before|].live && i < |before|;
      forall j | 0 <= j < i ensures !SameSubject(before[j].threshold, t) {
        assert all[j] == RetiredBy(before[j], t);
      }
      assert OldestAt(before, t, i);
    }
  }

  lemma ThresholdMembers(st: State, a: RegistryState.Authority, t: Threshold, config: Config, s: Stamp,
                         r: ThresholdRecord)
    requires PublishThresholdBody(st, a, t, config, s).Ok?
    ensures var next := PublishThresholdBody(st, a, t, config, s).value;
      var published := t.(source := a.source, epoch := a.epoch, generation := s.generation, sequence := s.sequence,
                          live := true);
      && next == st.(thresholds := next.thresholds)
      && |st.thresholds| <= |next.thresholds| <= |st.thresholds| + 1
      && (!SameSubject(r.threshold, t) ==> (r in next.thresholds <==> r in st.thresholds))
      && (SameSubject(r.threshold, t) && r in next.thresholds ==>
            || r == ThresholdRecord(published, true)
            || (!r.live && (r in st.thresholds || r.(live := true) in st.thresholds)))
  {
    hide Authorize, LiveThresholds, HistoryOf, FirstRetired;
    var retired := Retire(st.thresholds, t);
    var published := t.(source := a.source, epoch := a.epoch, generation := s.generation, sequence := s.sequence,
                        live := true);
    var all := retired + [ThresholdRecord(published, true)];
    var kept := BoundHistory(all, t, config.maxClaimHistory);
    RetiredMembers(st.thresholds, t, r);
    var i := FirstRetired(all, t);
    if i < |all| {
      ErasedMember(all, i, r);
    }
  }

  lemma RetiredMembers(ts: seq<ThresholdRecord>, t: Threshold, r: ThresholdRecord)
    ensures !SameSubject(r.threshold, t) ==> (r in Retire(ts, t) <==> r in ts)
    ensures SameSubject(r.threshold, t) && r in Retire(ts, t) ==> !r.live && (r in ts || r.(live := true) in ts)
  {
    var retired := Retire(ts, t);
    if r in retired {
      var i :| 0 <= i < |retired| && retired[i] == r;
      assert ts[i] in ts;
    }
    if r in ts {
      var i :| 0 <= i < |ts| && ts[i] == r;
      assert retired[i] in retired;
    }
  }

  lemma ErasedMember(s: seq<ThresholdRecord>, i: nat, r: ThresholdRecord)
    requires i < |s|
    ensures r in Erase(s, i) ==> r in s
    ensures r in s && r != s[i] ==> r in Erase(s, i)
  {
  }

  /** A published rule is stored with the authority and the stamps of the call, under the next id cut to 32 bits. */
  lemma RuleEffect(st: State, call: Call, config: Config, next: State)
    requires Good(st) && call.op.PublishRule? && Attempt(st, call, config) == Ok(next)
    ensures var op := call.op; var id := st.nextRuleId % 0x1_0000_0000;
      next == Bumped(st).(nextRuleId := st.nextRuleId + 1,
                          rules := st.rules[id :=
                            op.rule.(id := id, source := op.authority.source, epoch := op.authority.epoch,
                                     generation := st.generation + 1, sequence := st.nextSequence, live := true)])
  {
    hide Inv, Attempt, Authorize;
    Begun(st, call, config, next);
  }

  /** A retired rule was live; it keeps its content and takes the stamps of the retirement. */
  lemma RetirementEffect(st: State, call: Call, config: Config, next: State)
    requires Good(st) && call.op.RetireRule? && Attempt(st, call, config) == Ok(next)
    ensures var id := call.op.ruleId;
      && id in st.rules && st.rules[id].live
      && next == Bumped(st).(rules := st.rules[id := st.rules[id].(live := false, generation := st.generation + 1,
                                                                    sequence := st.nextSequence)])
  {
    hide Inv, Attempt, Authorize;
    Begun(st, call, config, next);
  }
}
