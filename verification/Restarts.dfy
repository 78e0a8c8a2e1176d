/**
 * What a save, a crash and a load leave of what one process had ruled out: dead evidence, retired tokens, old fences.
 */
module Restarts {
  import opened Bytes
  import opened Ordering
  import A = Authority
  import Utf8
  import Documents
  import opened Consensus
  import opened Capability
  import opened Health
  import opened Trim
  import opened RegistryState
  import opened Validation
  import opened Mutations
  import opened RegistryInvariant
  import opened Runs
  import opened Resurrection
  import RecordStream
  import opened SnapshotState
  import SnapshotRecovery
  import Snapshot
  import SnapshotTheorems
  import opened SnapshotSaved

  // ----- What a load brings back -----

  /** Counters and tables of a recovered state are the saved ones, and evidence comes only behind all its sources. */
  ghost predicate CameBack(t: State, u: State) {
    && u.nextSequence == t.nextSequence && u.nextSourceId == t.nextSourceId
    && (forall id :: id in u.sources ==> id in t.sources && u.sources[id] == t.sources[id])
    && (u.modules != map[] || u.ports != map[] ==> u.sources == t.sources)
    && (forall uid :: uid in u.modules ==>
          && uid in t.modules && u.modules[uid].claims == t.modules[uid].claims
          && u.modules[uid].declarations == t.modules[uid].declarations
          && u.modules[uid].samples == t.modules[uid].samples
          && u.modules[uid].incarnation == t.modules[uid].incarnation)
    && (forall port :: port in u.ports ==> port in t.ports && u.ports[port] == t.ports[port])
  }

  lemma RecoveredTables(t: State, l: Listing, k: nat)
    requires ListingOf(l, t) && 1 <= k <= 1 + SnapshotRecovery.Total(t, l)
    ensures CameBack(t, SnapshotTheorems.StateAfter(t, l, k, t.generation))
  {
    var p := ProgressAt(t, l, k - 1);
    SnapshotTheorems.StateAfterSome(t, l, k, t.generation);
    SnapshotRecovery.ProgressIsOrdered(t, l, k - 1);
    var u := SnapshotTheorems.StateAfter(t, l, k, t.generation);
    if u.modules != map[] || u.ports != map[] {
      assert p.modules > 0 || p.ports > 0;
      assert l.sources[..p.sources] == l.sources;
      SnapshotRecovery.RestrictAll(t.sources, l.sources);
    }
  }

  /** Loading changes none of these. */
  lemma LoadedTables(t: State, p: Snapshot.Parsed, now: int)
    requires CameBack(t, p.state) && t.nextSequence >= 1
    ensures CameBack(t, Snapshot.Loaded(p, now))
  {
    var st := p.state;
    var u := Snapshot.Loaded(p, now);
    assert u.sources == st.sources && u.ports == st.ports && u.modules.Keys == st.modules.Keys;
    forall uid | uid in u.modules
      ensures u.modules[uid] == st.modules[uid].(latches := u.modules[uid].latches)
    {
    }
  }

  /** The state a crashed registry loads, when at least its header record came back. */
  lemma LoadComesBack(st: State, t: State, l: Listing, file: seq<Byte>, k: nat, o: Snapshot.Options, now: int,
                      codec: Snapshot.Codec, crc: RecordStream.Checksum)
    requires Good(st) && st.nextSequence >= 1 && Saved(st, t) && ListingOf(l, t)
    requires SnapshotTheorems.Readable(codec, StateRecords(t, l))
    requires t.generation < 0x1_0000_0000_0000_0000 && o.allowTailRecovery
    requires SnapshotTheorems.SurvivingFile(file, t, l, k, codec, crc)
    ensures var loaded := Snapshot.Load(EMPTY_STATE, file, o, now, codec, crc);
      && loaded.Ok? && Good(loaded.value)
      && (k >= 1 ==> CameBack(t, loaded.value))
      && (k == 0 ==> NoSources(loaded.value))
  {
    hide Good, Saved, ListingOf, Snapshot.Loaded, SnapshotTheorems.StateAfter, SnapshotRecovery.Total, CameBack,
         SnapshotTheorems.SurvivingFile, SnapshotTheorems.Readable, StateRecords, Snapshot.ParseSnapshot;
    SavedIsGood(st, t);
    SavedCounters(st, t);
    SnapshotTheorems.SurvivorsParse(file, t, l, k, o, codec, crc);
    SnapshotTheorems.StateAfterGood(t, l, k, t.generation);
    var p := Snapshot.ParseSnapshot(file, o, codec, crc).value;
    SnapshotTheorems.LoadedIsGood(p, now);
    if k >= 1 {
      RecoveredTables(t, l, k);
      LoadedTables(t, p, now);
    } else {
      NothingCameBack(t, l);
      LoadedNothing(p, now);
    }
  }

  lemma NothingCameBack(t: State, l: Listing)
    requires ListingOf(l, t)
    ensures var u := SnapshotTheorems.StateAfter(t, l, 0, t.generation);
      u.sources == map[] && u.sourceIdByName == map[] && u.nextSourceId == 1
  {
  }

  lemma LoadedNothing(p: Snapshot.Parsed, now: int)
    ensures var u := Snapshot.Loaded(p, now);
      u.sources == p.state.sources && u.sourceIdByName == p.state.sourceIdByName
        && u.nextSourceId == p.state.nextSourceId
  {
  }

  // ----- Dead evidence -----

  lemma DeadIsSavedDead<V>(kind: ClaimKind, s: seq<Claim<V>>, t: seq<Claim<V>>, incarnation: nat, e: map<nat, nat>,
                           c: Claim<V>)
    requires multiset(t) == multiset(s)
    ensures ClaimLive(kind, t, incarnation, e, c) <==> ClaimLive(kind, s, incarnation, e, c)
  {
    hide Shadowed;
    SameMembers(s, t);
    ArrangedShadow(kind, s, t, c);
  }

  /** What comes back dead was dead: nothing is alive after the load that was not when the state was saved. */
  lemma LoadRevivesNothing(st: State, t: State, u: State, uid: nat, port: Text, c: IdentityClaim, d: Declaration,
                           x: HealthSample)
    requires Saved(st, t) && CameBack(t, u)
    ensures IdentityLive(u, uid, c) ==> IdentityLive(st, uid, c)
    ensures DeclarationLive(u, uid, d) ==> DeclarationLive(st, uid, d)
    ensures PortDeclarationLive(u, port, d) ==> PortDeclarationLive(st, port, d)
    ensures SampleLive(u, uid, x) ==> SampleLive(st, uid, x)
  {
    hide ClaimLive, EventsArranged;
    if uid in u.modules {
      var r, s := st.modules[uid], t.modules[uid];
      assert SavedModule(r, s);
      DeadIsSavedDead(OfIdentity, r.claims, s.claims, r.incarnation, Epochs(st.sources), c);
      DeadIsSavedDead(OfModule, r.declarations, s.declarations, r.incarnation, Epochs(st.sources), d);
      SameMembers(s.samples, r.samples);
    }
  }

  /**
   * Dead before the save, dead in every state after the load: identity claims, declarations of either kind, samples. It
   * is enough that the header record came back; a header lost to the crash starts the sequence numbers over.
   */
  lemma DeadAcrossRestart(st: State, t: State, l: Listing, file: seq<Byte>, k: nat, o: Snapshot.Options, now: int,
                          more: seq<Call>, config: Config, codec: Snapshot.Codec, crc: RecordStream.Checksum,
                          uid: nat, port: Text, c: IdentityClaim, d: Declaration, x: HealthSample)
    requires Good(st) && st.nextSequence >= 1 && Saved(st, t) && ListingOf(l, t)
    requires SnapshotTheorems.Readable(codec, StateRecords(t, l))
    requires t.generation < 0x1_0000_0000_0000_0000 && o.allowTailRecovery
    requires SnapshotTheorems.SurvivingFile(file, t, l, k, codec, crc) && k >= 1
    ensures Snapshot.Load(EMPTY_STATE, file, o, now, codec, crc).Ok?
    ensures var later := RunCalls(Snapshot.Load(EMPTY_STATE, file, o, now, codec, crc).value, more, config);
      && (c.sequence < st.nextSequence && !IdentityLive(st, uid, c) ==> !IdentityLive(later, uid, c))
      && (d.sequence < st.nextSequence && !DeclarationLive(st, uid, d) ==> !DeclarationLive(later, uid, d))
      && (d.sequence < st.nextSequence && !PortDeclarationLive(st, port, d) ==> !PortDeclarationLive(later, port, d))
      && (x.sequence < st.nextSequence && !SampleLive(st, uid, x) ==> !SampleLive(later, uid, x))
  {
    hide Good, Saved, ListingOf, RunCalls, SnapshotTheorems.SurvivingFile, SnapshotTheorems.Readable, StateRecords,
         Snapshot.Load, IdentityLive, DeclarationLive, PortDeclarationLive, SampleLive;
    LoadComesBack(st, t, l, file, k, o, now, codec, crc);
    var u := Snapshot.Load(EMPTY_STATE, file, o, now, codec, crc).value;
    SavedCounters(st, t);
    LoadRevivesNothing(st, t, u, uid, port, c, d, x);
    NoResurrection(u, more, config, uid, port, c, d, x);
  }

  // ----- Retired tokens -----

  /** The token cannot be accepted: its epoch was retired, or its source id was given out and then lost. */
  ghost predicate Spent(st: State, a: RegistryState.Authority) {
    if a.source in st.sources then a.epoch < st.sources[a.source].epoch else a.source < st.nextSourceId
  }

  lemma SpentIsRefused(st: State, a: RegistryState.Authority)
    requires Spent(st, a)
    ensures Authorize(st, a).Err?
  {
  }

  lemma RegistrationBody(st: State, call: Call, config: Config, s: Stamp)
    requires call.op.RegisterSource?
    ensures Body(st, call, config, s)
         == RegisterSourceBody(st, call.op.name, call.op.instanceId, call.op.description, config, s)
  {
    hide RegisterSourceBody;
  }

  lemma RegistrationSpends(st: State, name: Text, instanceId: Text, description: Text, config: Config, s: Stamp,
                           a: RegistryState.Authority, n: nat)
    requires SourcesOk(st.sources, st.sourceIdByName, st.nextSourceId, n) && Spent(st, a)
    requires RegisterSourceBody(st, name, instanceId, description, config, s).Ok?
    ensures Spent(RegisterSourceBody(st, name, instanceId, description, config, s).value, a)
  {
  }

  lemma SpentStays(st: State, call: Call, config: Config, a: RegistryState.Authority)
    requires Good(st) && Spent(st, a) && Attempt(st, call, config).Ok?
    ensures Spent(Attempt(st, call, config).value, a)
  {
    hide Attempt, Body, RegisterSourceBody;
    CommitParts(st, call, config);
    var begun, s := st.(nextSequence := st.nextSequence + 1), StampOf(st, call);
    if call.op.RegisterSource? {
      SourcesOfGood(st);
      RegistrationBody(begun, call, config, s);
      RegistrationSpends(begun, call.op.name, call.op.instanceId, call.op.description, config, s, a, st.nextSequence);
    }
  }

  lemma SourcesOfGood(st: State)
    requires Good(st)
    ensures SourcesOk(st.sources, st.sourceIdByName, st.nextSourceId, st.nextSequence)
  {
  }

  lemma {:induction false} SpentForever(st: State, calls: seq<Call>, config: Config, a: RegistryState.Authority)
    requires Good(st) && Spent(st, a)
    ensures Spent(RunCalls(st, calls, config), a)
  {
    hide Good, Spent, Attempt;
    if calls != [] {
      var front, call := calls[..|calls| - 1], calls[|calls| - 1];
      SpentForever(st, front, config, a);
      RunKeepsInvariant(st, front, config);
      var before := RunCalls(st, front, config);
      if Attempt(before, call, config).Ok? {
        SpentStays(before, call, config, a);
      }
    }
  }

  lemma SpentComesBack(st: State, t: State, u: State, a: RegistryState.Authority)
    requires Good(st) && RetiredToken(st, a) && Saved(st, t) && CameBack(t, u)
    ensures Spent(u, a)
  {
    SourcesOfGood(st);
    hide Good;
  }

  // A registry without sources gives out every token again.

  predicate NoSources(st: State) { st.sources == map[] && st.sourceIdByName == map[] && st.nextSourceId == 1 }

  /** n in k digits of base 64, as printable characters. */
  function Digits(n: nat, k: nat): (t: Text)
    ensures |t| == k && forall i :: 0 <= i < k ==> t[i] < 0x80
  {
    if k == 0 then [] else [0x30 + n % 64] + Digits(n / 64, k - 1)
  }

  function Power(k: nat): nat { if k == 0 then 1 else 64 * Power(k - 1) }

  lemma {:induction false} DigitsDecide(n: nat, m: nat, k: nat)
    requires Digits(n, k) == Digits(m, k) && n < Power(k) && m < Power(k)
    ensures n == m
  {
    if k > 0 {
      assert Digits(n, k)[0] == Digits(m, k)[0] && Digits(n, k)[1..] == Digits(m, k)[1..];
      DigitsDecide(n / 64, m / 64, k - 1);
    }
  }

  function NameOf(n: nat): Text { Digits(n, 6) }

  lemma NamesDiffer(n: nat, m: nat)
    requires n < m <= 0x1_0000_0000
    ensures NameOf(n) != NameOf(m)
  {
    assert Power(1) == 64 && Power(2) == 0x1000 && Power(3) == 0x4_0000;
    assert Power(4) == 0x100_0000 && Power(5) == 0x4000_0000 && Power(6) == 0x10_0000_0000;
    if NameOf(n) == NameOf(m) {
      DigitsDecide(n, m, 6);
    }
  }

  const MIDNIGHT := Clock(0, 0, 0, 0)

  function Registration(n: nat): Call { Call(RegisterSource(NameOf(n), [], []), false, MIDNIGHT) }

  lemma NameIsFine(n: nat, config: Config)
    ensures CheckCall(Registration(n).op, config, 0) == Ok(())
  {
    Documents.AsciiIsUtf8(NameOf(n));
    Documents.AsciiIsUtf8([]);
    hide Utf8.Valid;
  }

  /** Sources 1 to n are registered under the first n names, the last at its first epoch. */
  ghost predicate Filled(st: State, n: nat) {
    && st.nextSourceId == n + 1 && |st.sources| == n && (n + 1 !in st.sources)
    && (forall id :: id in st.sources ==> 1 <= id <= n)
    && (forall m :: n <= m <= 0x1_0000_0000 ==> NameOf(m) !in st.sourceIdByName)
    && (n >= 1 ==> Newest(st, n, 1))
  }

  /** The nth source is registered at this epoch. */
  predicate Newest(st: State, n: nat, epoch: nat)
  {
    && n in st.sources && n >= 1 && NameOf(n - 1) in st.sourceIdByName && st.sourceIdByName[NameOf(n - 1)] == n
    && st.sources[n].id == n && st.sources[n].name == NameOf(n - 1) && st.sources[n].epoch == epoch
  }

  lemma FillOne(st: State, n: nat, config: Config)
    requires Filled(st, n) && n < config.maxSources && n + 1 < MAX_U32
    ensures Filled(After(st, Registration(n), config), n + 1)
  {
    hide CheckCall, NameOf;
    NameIsFine(n, config);
    var next := After(st, Registration(n), config);
    forall m | n + 1 <= m <= 0x1_0000_0000 ensures NameOf(m) !in next.sourceIdByName {
      NamesDiffer(n, m);
    }
  }

  lemma RunOneMore(st: State, calls: seq<Call>, call: Call, config: Config)
    ensures RunCalls(st, calls + [call], config) == After(RunCalls(st, calls, config), call, config)
  {
    assert (calls + [call])[..|calls|] == calls;
  }

  lemma {:induction false} FillSources(st: State, n: nat, config: Config) returns (calls: seq<Call>)
    requires NoSources(st) && n <= config.maxSources && n < MAX_U32
    ensures Filled(RunCalls(st, calls, config), n)
  {
    hide After, NameOf;
    if n == 0 {
      calls := [];
    } else {
      var front := FillSources(st, n - 1, config);
      hide Filled;
      FillOne(RunCalls(st, front, config), n - 1, config);
      RunOneMore(st, front, Registration(n - 1), config);
      calls := front + [Registration(n - 1)];
    }
  }

  lemma Reconnect(st: State, n: nat, epoch: nat, config: Config)
    requires n >= 1 && Newest(st, n, epoch) && epoch < MAX_U32
    ensures Newest(After(st, Registration(n - 1), config), n, epoch + 1)
  {
    hide CheckCall, NameOf;
    NameIsFine(n - 1, config);
  }

  lemma {:induction false} RaiseEpoch(st: State, calls: seq<Call>, n: nat, epoch: nat, config: Config)
    returns (more: seq<Call>)
    requires n >= 1 && 1 <= epoch <= MAX_U32 && Newest(RunCalls(st, calls, config), n, 1)
    ensures Newest(RunCalls(st, more, config), n, epoch)
  {
    hide After, NameOf, Newest, RunCalls;
    if epoch == 1 {
      more := calls;
    } else {
      var front := RaiseEpoch(st, calls, n, epoch - 1, config);
      Reconnect(RunCalls(st, front, config), n, epoch - 1, config);
      RunOneMore(st, front, Registration(n - 1), config);
      more := front + [Registration(n - 1)];
    }
  }

  /** With the source table and its counter gone, registrations hand out every token there can be. */
  lemma TokensAreReissued(st: State, a: RegistryState.Authority, config: Config) returns (calls: seq<Call>)
    requires NoSources(st) && 1 <= a.source <= config.maxSources && a.source < MAX_U32 && 1 <= a.epoch <= MAX_U32
    ensures Authorize(RunCalls(st, calls, config), a) == Ok(())
  {
    hide RunCalls, NameOf;
    calls := FillSources(st, a.source, config);
    calls := RaiseEpoch(st, calls, a.source, a.epoch, config);
  }

  /**
   * A retired token is refused in every state after save, crash and load exactly when the header record came back: it
   * carries the source counter, so even a source whose own record is lost never gets its id, or its tokens, back.
   */
  lemma RetiredTokenAcrossRestart(st: State, t: State, l: Listing, file: seq<Byte>, k: nat, o: Snapshot.Options,
                                  now: int, config: Config, codec: Snapshot.Codec, crc: RecordStream.Checksum,
                                  a: RegistryState.Authority)
    requires Good(st) && st.nextSequence >= 1 && Saved(st, t) && ListingOf(l, t)
    requires SnapshotTheorems.Readable(codec, StateRecords(t, l))
    requires t.generation < 0x1_0000_0000_0000_0000 && o.allowTailRecovery
    requires SnapshotTheorems.SurvivingFile(file, t, l, k, codec, crc)
    requires RetiredToken(st, a) && a.source <= config.maxSources && a.source < MAX_U32 && 1 <= a.epoch <= MAX_U32
    ensures Snapshot.Load(EMPTY_STATE, file, o, now, codec, crc).Ok?
    ensures var u := Snapshot.Load(EMPTY_STATE, file, o, now, codec, crc).value;
      (forall more :: Authorize(RunCalls(u, more, config), a).Err?) <==> k >= 1
  {
    hide Good, Saved, ListingOf, RunCalls, SnapshotTheorems.SurvivingFile, SnapshotTheorems.Readable, StateRecords,
         Snapshot.Load, Spent, CameBack, Authorize;
    LoadComesBack(st, t, l, file, k, o, now, codec, crc);
    var u := Snapshot.Load(EMPTY_STATE, file, o, now, codec, crc).value;
    if k >= 1 {
      SpentComesBack(st, t, u, a);
      forall more ensures Authorize(RunCalls(u, more, config), a).Err? {
        SpentForever(u, more, config, a);
        SpentIsRefused(RunCalls(u, more, config), a);
      }
    } else {
      var calls := TokensAreReissued(u, a, config);
    }
  }

  // ----- Fences of the lost process -----

  /**
   * What the previous process handed out after the save: a call fenced on the generation it had reached is refused as
   * stale after the load unless exactly one call had committed since the save, for that generation the load reuses.
   */
  lemma LostProcessFences(p: Snapshot.Parsed, now: int, since: seq<Call>, call: Call, config: Config)
    requires Good(p.state) && p.state.nextSequence >= 1
    requires call.requireGeneration && ExpectedGeneration(call.op) == RunCalls(p.state, since, config).generation != 0
    ensures Mutated(Snapshot.Loaded(p, now), call, config) == Err(StaleGeneration) <==>
            CommitCount(p.state, since, config) != 1
  {
    hide Good, Mutated, RunCalls, CommitCount, Snapshot.Loaded;
    GenerationCountsCommits(p.state, since, config);
    SnapshotTheorems.LoadFencesOldHandles(p, now, call, config);
  }
}
