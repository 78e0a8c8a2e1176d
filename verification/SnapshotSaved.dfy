/** The saved form of a state: lists sorted by sequence, ties in any order, series counters recounted on load. */
module SnapshotSaved {
  import opened Bytes
  import opened Ordering
  import A = Authority
  import opened Consensus
  import opened Capability
  import opened Lifecycle
  import opened Health
  import opened HealthReport
  import opened Trim
  import opened TrimAnswers
  import opened Samples
  import opened RegistryState
  import opened Mutations
  import opened RegistryInvariant
  import opened InvariantSteps
  import opened InvariantRegistration
  import opened Runs
  import Reachable
  import RecordStream
  import opened SnapshotState
  import Snapshot
  import SnapshotRecovery
  import SnapshotTheorems

  // ----- What std::sort guarantees of each list -----

  ghost predicate ClaimsArranged<V>(s: seq<Claim<V>>, t: seq<Claim<V>>) {
    multiset(t) == multiset(s) && forall i, j :: 0 <= i < j < |t| ==> t[i].sequence <= t[j].sequence
  }

  ghost predicate SamplesArranged(s: seq<HealthSample>, t: seq<HealthSample>) {
    multiset(t) == multiset(s) && forall i, j :: 0 <= i < j < |t| ==> t[i].sequence <= t[j].sequence
  }

  ghost predicate EventsArranged(s: seq<LifecycleEvent>, t: seq<LifecycleEvent>) {
    multiset(t) == multiset(s) && forall i, j :: 0 <= i < j < |t| ==> t[i].sequence <= t[j].sequence
  }

  ghost predicate SavedModule(r: ModuleRecord, t: ModuleRecord) {
    && t == r.(claims := t.claims, declarations := t.declarations, samples := t.samples, lifecycle := t.lifecycle,
               seriesCounts := Recount(t.samples))
    && ClaimsArranged(r.claims, t.claims) && ClaimsArranged(r.declarations, t.declarations)
    && SamplesArranged(r.samples, t.samples) && EventsArranged(r.lifecycle, t.lifecycle)
  }

  /** t is what saving st, with history, writes and a full load reads. */
  ghost predicate Saved(st: State, t: State) {
    && t == st.(modules := t.modules) && t.modules.Keys == st.modules.Keys
    && forall uid :: uid in st.modules ==> SavedModule(st.modules[uid], t.modules[uid])
  }

  // ----- Sorting -----

  predicate ClaimBefore(a: IdentityClaim, b: IdentityClaim) {
    a.sequence < b.sequence || (a.sequence == b.sequence && TextLess(a.value, b.value))
  }

  predicate DeclarationBefore(a: Declaration, b: Declaration) {
    a.sequence < b.sequence || (a.sequence == b.sequence && a.attr < b.attr)
  }

  predicate SampleBefore(a: HealthSample, b: HealthSample) {
    a.sequence < b.sequence || (a.sequence == b.sequence && a.wallNs < b.wallNs)
  }

  predicate EventBefore(a: LifecycleEvent, b: LifecycleEvent) {
    a.sequence < b.sequence || (a.sequence == b.sequence && a.wallNs < b.wallNs)
  }

  lemma ClaimOrder()
    ensures WeakOrder(ClaimBefore)
  {
    forall a: IdentityClaim, b: IdentityClaim ensures ClaimBefore(a, b) ==> !ClaimBefore(b, a) {
      TextLessTotal(a.value, b.value);
    }
    forall a: IdentityClaim, b: IdentityClaim, c: IdentityClaim | !ClaimBefore(b, a) && !ClaimBefore(c, b)
      ensures !ClaimBefore(c, a)
    {
      if a.sequence == b.sequence == c.sequence {
        NotLessTransitive(a.value, b.value, c.value);
      }
    }
  }

  lemma NotLessTransitive(a: Text, b: Text, c: Text)
    requires !TextLess(b, a) && !TextLess(c, b)
    ensures !TextLess(c, a)
  {
    TextLessTotal(a, b);
    TextLessTotal(b, c);
    TextLessTotal(a, c);
    if a != b && b != c && TextLess(c, a) {
      TextLessTransitive(c, a, b);
    }
  }

  method RecountSeries(samples: seq<HealthSample>) returns (counts: map<nat, nat>)
    ensures counts == Recount(samples)
  {
    counts := map[];
    for i := 0 to |samples|
      invariant counts == Recount(samples[..i])
    {
      assert samples[..i + 1][..i] == samples[..i];
      var code := SampleSeries(samples[i]);
      counts := counts[code := CountOf(counts, code) + 1];
    }
    assert samples[..|samples|] == samples;
  }

  /** encode_module followed by decode_module. */
  method SaveModule(r: ModuleRecord) returns (t: ModuleRecord)
    ensures SavedModule(r, t)
  {
    hide Sort, Recount, TextLess;
    ClaimOrder();
    SortSorted(r.claims, ClaimBefore);
    SortSorted(r.declarations, DeclarationBefore);
    SortSorted(r.samples, SampleBefore);
    SortSorted(r.lifecycle, EventBefore);
    t := r.(claims := Sort(r.claims, ClaimBefore), declarations := Sort(r.declarations, DeclarationBefore),
            samples := Sort(r.samples, SampleBefore), lifecycle := Sort(r.lifecycle, EventBefore));
    var counts := RecountSeries(t.samples);
    t := t.(seriesCounts := counts);
  }

  /** A recount leaves no surplus: a series that had stopped storing samples stores them again after a load. */
  lemma {:induction false} RecountHeals(samples: seq<HealthSample>, code: nat)
    ensures Surplus(Ring(samples, Recount(samples), 0), code) == 0
  {
    hide SampleSeries;
    if samples != [] {
      var front, x := samples[..|samples| - 1], samples[|samples| - 1];
      RecountHeals(front, code);
      FilterLast(front, x, OfSeries(code));
      assert samples == front + [x];
    } else {
      FilterNone(OfSeries(code));
    }
  }

  // ----- The saved form keeps the invariant -----

  lemma SameMembers<T>(s: seq<T>, t: seq<T>)
    requires multiset(t) == multiset(s)
    ensures forall x :: x in t ==> x in s
    ensures forall x :: x in s ==> x in t
  {
    assert forall x :: x in t ==> x in multiset(t);
    assert forall x :: x in s ==> x in multiset(s);
  }

  lemma OrderlyDistinct<V>(s: seq<Claim<V>>)
    requires Orderly(s)
    ensures DistinctInGroups(s)
  {
  }

  lemma PairInOrder<V>(s: seq<Claim<V>>, x: Claim<V>, y: Claim<V>)
    requires Orderly(s) && x in s && y in s && x != y && x.sequence <= y.sequence
    ensures x.incarnation <= y.incarnation
    ensures x.sequence == y.sequence ==> KeyOf(x) != KeyOf(y) && x.incarnation == y.incarnation
  {
    var i :| 0 <= i < |s| && s[i] == x;
    var j :| 0 <= j < |s| && s[j] == y;
  }

  lemma ArrangedOrderly<V(!new)>(s: seq<Claim<V>>, t: seq<Claim<V>>)
    requires Orderly(s) && ClaimsArranged(s, t)
    ensures Orderly(t)
  {
    SameMembers(s, t);
    OrderlyDistinct(s);
    hide Orderly, DistinctInGroups;
    forall i, j | 0 <= i < j < |t|
      ensures t[i].sequence <= t[j].sequence && t[i].incarnation <= t[j].incarnation
      ensures t[i].sequence == t[j].sequence ==> KeyOf(t[i]) != KeyOf(t[j]) && t[i].incarnation == t[j].incarnation
    {
      assert t[i] in s && t[j] in s;
      Repeated(t, i, j);
      DistinctOnce(s, t[i]);
      PairInOrder(s, t[i], t[j]);
    }
    assert Orderly(t) by { OrderlyMeans(t); }
  }

  lemma OrderlyMeans<V>(t: seq<Claim<V>>)
    requires forall i, j :: 0 <= i < j < |t| ==>
      && t[i].sequence <= t[j].sequence && t[i].incarnation <= t[j].incarnation
      && (t[i].sequence == t[j].sequence ==> KeyOf(t[i]) != KeyOf(t[j]) && t[i].incarnation == t[j].incarnation)
    ensures Orderly(t)
  {
  }

  lemma ArrangedClaimsOk<V(!new)>(s: seq<Claim<V>>, t: seq<Claim<V>>, uid: nat, i: nat, port: Text, e: map<nat, nat>,
                                  n: nat)
    requires ClaimsOk(s, uid, i, port, e, n) && ClaimsArranged(s, t)
    ensures ClaimsOk(t, uid, i, port, e, n)
  {
    hide Orderly, ClaimOk;
    ArrangedOrderly(s, t);
    SameMembers(s, t);
  }

  lemma SamplePositions(s: seq<HealthSample>, x: HealthSample, y: HealthSample, uid: nat, inc: nat, e: map<nat, nat>,
                        n: nat)
    requires SamplesOk(s, uid, inc, e, n) && x in s && y in s && x != y
    ensures x.sequence != y.sequence
    ensures x.sequence < y.sequence ==> x.incarnation <= y.incarnation
  {
    hide SampleOk;
    var i :| 0 <= i < |s| && s[i] == x;
    var j :| 0 <= j < |s| && s[j] == y;
  }

  lemma {:induction false} SamplesOnce(s: seq<HealthSample>, x: HealthSample)
    requires forall i, j :: 0 <= i < j < |s| ==> s[i].sequence < s[j].sequence
    ensures multiset(s)[x] <= 1
  {
    if s != [] {
      var front := s[..|s| - 1];
      assert s == front + [s[|s| - 1]];
      SamplesOnce(front, x);
      assert s[|s| - 1] !in front;
    }
  }

  lemma ArrangedSamplesOk(s: seq<HealthSample>, t: seq<HealthSample>, uid: nat, inc: nat, e: map<nat, nat>, n: nat)
    requires SamplesOk(s, uid, inc, e, n) && SamplesArranged(s, t)
    ensures SamplesOk(t, uid, inc, e, n)
  {
    hide SampleOk;
    SameMembers(s, t);
    forall i, j | 0 <= i < j < |t| ensures t[i].sequence < t[j].sequence && t[i].incarnation <= t[j].incarnation {
      assert t[i] in s && t[j] in s;
      Repeated(t, i, j);
      SamplesOnce(s, t[i]);
      SamplePositions(s, t[i], t[j], uid, inc, e, n);
    }
  }

  lemma ArrangedEventsOk(s: seq<LifecycleEvent>, t: seq<LifecycleEvent>, inc: nat, e: map<nat, nat>, n: nat)
    requires EventsOk(s, inc, e, n) && EventsArranged(s, t)
    ensures EventsOk(t, inc, e, n)
  {
    SameMembers(s, t);
  }

  lemma SavedModuleOk(r: ModuleRecord, t: ModuleRecord, uid: nat, e: map<nat, nat>, n: nat)
    requires RecordOk(r, uid, e, n) && SavedModule(r, t)
    ensures RecordOk(t, uid, e, n)
  {
    hide RecordOk, ClaimsOk, SamplesOk, EventsOk, ClaimsArranged, SamplesArranged, EventsArranged;
    OwnLists(r, uid, e, n);
    ArrangedClaimsOk(r.claims, t.claims, uid, r.incarnation, [], e, n);
    ArrangedClaimsOk(r.declarations, t.declarations, uid, r.incarnation, [], e, n);
    ArrangedSamplesOk(r.samples, t.samples, uid, r.incarnation, e, n);
    ArrangedEventsOk(r.lifecycle, t.lifecycle, r.incarnation, e, n);
    RecordFromLists(t, uid, e, n);
  }

  /** What is written satisfies the invariant whenever the running state does. */
  lemma SavedIsGood(st: State, t: State)
    requires Good(st) && Saved(st, t)
    ensures Good(t)
  {
    hide RecordOk, SavedModule, PortsOk, ThresholdsOk, RulesOk, SourcesOk, Known;
    forall uid | uid in t.modules
      ensures RecordOk(t.modules[uid], uid, Epochs(t.sources), t.nextSequence)
      ensures t.modules[uid].key == st.modules[uid].key && t.modules[uid].incarnation == st.modules[uid].incarnation
    {
      SavedModuleOk(st.modules[uid], t.modules[uid], uid, Epochs(st.sources), st.nextSequence);
      SavedModuleKeys(st.modules[uid], t.modules[uid]);
    }
  }

  lemma SavedModuleKeys(r: ModuleRecord, t: ModuleRecord)
    requires SavedModule(r, t)
    ensures t.key == r.key && t.incarnation == r.incarnation
  {
    hide ClaimsArranged, SamplesArranged, EventsArranged;
  }

  // ----- The saved form answers alike -----

  lemma ArrangedShadow<V>(kind: ClaimKind, s: seq<Claim<V>>, t: seq<Claim<V>>, c: Claim<V>)
    requires multiset(t) == multiset(s)
    ensures Shadowed(kind, t, c) <==> Shadowed(kind, s, c)
  {
    SameMembers(s, t);
    if Shadowed(kind, t, c) {
      var j :| 0 <= j < |t| && Shadows(kind, t[j], c);
      assert t[j] in t && t[j] in s;
      var i :| 0 <= i < |s| && s[i] == t[j];
    }
    if Shadowed(kind, s, c) {
      var j :| 0 <= j < |s| && Shadows(kind, s[j], c);
      assert s[j] in s && s[j] in t;
      var i :| 0 <= i < |t| && t[i] == s[j];
    }
  }

  lemma ArrangedView<V(!new)>(kind: ClaimKind, s: seq<Claim<V>>, t: seq<Claim<V>>, incarnation: nat,
                              epochs: map<nat, nat>)
    requires multiset(t) == multiset(s)
    ensures multiset(LiveView(kind, t, incarnation, epochs)) == multiset(LiveView(kind, s, incarnation, epochs))
  {
    hide ViewPart, Shadowed;
    forall x: Claim<V>
      ensures multiset(LiveView(kind, t, incarnation, epochs))[x] == multiset(LiveView(kind, s, incarnation, epochs))[x]
    {
      ViewCount(kind, s, s, incarnation, epochs, x);
      ViewCount(kind, t, t, incarnation, epochs, x);
      ArrangedShadow(kind, s, t, x.(live := true));
      ArrangedShadow(kind, s, t, x.(live := false));
    }
  }

  /** Saving and loading changes no consensus answer, however ties were ordered on disk. */
  lemma SavedAnswersAlike(st: State, t: State, uid: nat)
    requires Good(st) && Saved(st, t) && uid in st.modules
    ensures uid in t.modules
    ensures var r, s, e := st.modules[uid], t.modules[uid], Epochs(st.sources);
      && Build(LiveView(OfIdentity, s.claims, s.incarnation, e))
         == Build(LiveView(OfIdentity, r.claims, r.incarnation, e))
      && Build(LiveView(OfModule, s.declarations, s.incarnation, e))
         == Build(LiveView(OfModule, r.declarations, r.incarnation, e))
  {
    hide Inv, RecordOk, ClaimsOk, Build, Orderly, LiveView, OneSubject, UpTo, DistinctInGroups;
    var n, e := st.nextSequence, Epochs(st.sources);
    var r, s := st.modules[uid], t.modules[uid];
    assert SavedModule(r, s);
    RecordAt(st, uid, n);
    OwnLists(r, uid, e, n);
    ListsAreTrimmable(OfIdentity, r.claims, uid, r.incarnation, [], e, n);
    ListsAreTrimmable(OfModule, r.declarations, uid, r.incarnation, [], e, n);
    ViewsAlike(OfIdentity, r.claims, s.claims, r.incarnation, e);
    ViewsAlike(OfModule, r.declarations, s.declarations, r.incarnation, e);
  }

  lemma ViewsAlike<V(!new)>(kind: ClaimKind, s: seq<Claim<V>>, t: seq<Claim<V>>, incarnation: nat,
                            epochs: map<nat, nat>)
    requires Orderly(s) && multiset(t) == multiset(s)
    ensures Build(LiveView(kind, t, incarnation, epochs)) == Build(LiveView(kind, s, incarnation, epochs))
  {
    hide Orderly, Build, ViewPart, DistinctInGroups;
    Reachable.ViewDistinct(kind, s, s, incarnation, epochs);
    ArrangedView(kind, s, t, incarnation, epochs);
    OrderFree(LiveView(kind, s, incarnation, epochs), LiveView(kind, t, incarnation, epochs));
  }

  // ----- Listing the tables -----

  method SortTexts(keys: set<Text>) returns (r: seq<Text>)
    ensures Lists(r, keys) && StrictlySorted(r, TextLess)
  {
    hide TextLess;
    r := [];
    var pending := keys;
    TextOrder();
    while pending != {}
      invariant pending <= keys && StrictlySorted(r, TextLess)
      invariant forall k :: k in r <==> k in keys && k !in pending
      decreases |pending|
    {
      var k :| k in pending;
      InsertUniqueSorted(k, r, TextLess);
      r := InsertUnique(k, r, TextLess);
      pending := pending - {k};
    }
    StrictIsDistinct(r);
  }

  lemma StrictIsDistinct(r: seq<Text>)
    requires StrictlySorted(r, TextLess)
    ensures forall i, j :: 0 <= i < j < |r| ==> r[i] != r[j]
  {
    forall i, j | 0 <= i < j < |r| ensures r[i] != r[j] {
      TextLessTotal(r[i], r[j]);
    }
  }

  lemma AscendingLists(keys: set<nat>)
    ensures Lists(Ascending(keys), keys)
    ensures forall i, j :: 0 <= i < j < |Ascending(keys)| ==> Ascending(keys)[i] < Ascending(keys)[j]
  {
  }

  lemma ListedKeys(l: Listing, st: State)
    requires ListingOf(l, st)
    ensures (forall k :: k in l.sources ==> k in st.sources) && (forall k :: k in l.modules ==> k in st.modules)
    ensures (forall k :: k in l.ports ==> k in st.ports) && (forall k :: k in l.slots ==> k in st.attachments)
    ensures forall k :: k in l.rules ==> k in st.rules
  {
  }

  /** encode_state_records: header, then every table in key order. */
  method CollectRecords(st: State) returns (records: seq<Record>, l: Listing)
    ensures ListingOf(l, st) && records == StateRecords(st, l)
    ensures StrictlySorted(l.ports, TextLess) && StrictlySorted(l.slots, TextLess)
    ensures forall i, j :: 0 <= i < j < |l.sources| ==> l.sources[i] < l.sources[j]
    ensures forall i, j :: 0 <= i < j < |l.modules| ==> l.modules[i] < l.modules[j]
    ensures forall i, j :: 0 <= i < j < |l.rules| ==> l.rules[i] < l.rules[j]
  {
    var ports := SortTexts(st.ports.Keys);
    var slots := SortTexts(st.attachments.Keys);
    AscendingLists(st.sources.Keys);
    AscendingLists(st.modules.Keys);
    AscendingLists(st.rules.Keys);
    var sources, modules, rules := Ascending(st.sources.Keys), Ascending(st.modules.Keys), Ascending(st.rules.Keys);
    l := Listing(sources, modules, ports, slots, rules);
    hide TextLess, Ascending, Lists, SourceEntries, ModuleEntries, PortEntries, AttachmentEntries, ThresholdEntries,
         RuleEntries;
    ListedKeys(l, st);
    records := [HeaderEntry(HeaderOf(st))] + SourceEntries(st, sources);
    records := records + ModuleEntries(st, modules);
    records := records + PortEntries(st, ports);
    records := records + AttachmentEntries(st, slots);
    records := records + ThresholdEntries(st);
    records := records + RuleEntries(st, rules);
  }

  // ----- Run, save, crash, load, run on -----

  lemma StartedAtOne(calls: seq<Call>, config: Config)
    ensures RunCalls(EMPTY_STATE, calls, config).nextSequence >= 1
    ensures Good(RunCalls(EMPTY_STATE, calls, config))
  {
    hide Good, RunCalls;
    EmptyIsGood();
    RunKeepsInvariant(EMPTY_STATE, calls, config);
    GenerationCountsCommits(EMPTY_STATE, calls, config);
  }

  /**
   * Run, save, crash, load, run on: whatever ran before the save and wherever the saved file was torn, if at all, the
   * load of that file succeeds with the records before the tear, and every state from then on keeps the invariant.
   */
  lemma LifeAfterCrash(calls: seq<Call>, t: State, l: Listing, file: seq<Byte>, k: nat, o: Snapshot.Options, now: int,
                       more: seq<Call>, config: Config, codec: Snapshot.Codec, crc: RecordStream.Checksum)
    requires Saved(RunCalls(EMPTY_STATE, calls, config), t) && ListingOf(l, t)
    requires SnapshotTheorems.Readable(codec, StateRecords(t, l))
    requires t.generation < 0x1_0000_0000_0000_0000 && o.allowTailRecovery
    requires SnapshotTheorems.SurvivingFile(file, t, l, k, codec, crc)
    ensures k <= 1 + SnapshotRecovery.Total(t, l)
    ensures var loaded := Snapshot.Load(EMPTY_STATE, file, o, now, codec, crc);
      && loaded.Ok? && loaded.value.attachments == SnapshotTheorems.StateAfter(t, l, k, t.generation).attachments
      && loaded.value.sources == SnapshotTheorems.StateAfter(t, l, k, t.generation).sources
      && Good(RunCalls(loaded.value, more, config))
  {
    hide Good, Saved, ListingOf, RunCalls, Snapshot.Loaded, SnapshotTheorems.StateAfter, SnapshotRecovery.Total,
         SnapshotTheorems.SurvivingFile, SnapshotTheorems.Readable, StateRecords, Snapshot.ParseSnapshot;
    var st := RunCalls(EMPTY_STATE, calls, config);
    StartedAtOne(calls, config);
    SavedIsGood(st, t);
    assert t.nextSequence == st.nextSequence by { SavedCounters(st, t); }
    SnapshotTheorems.SurvivorsParse(file, t, l, k, o, codec, crc);
    SnapshotTheorems.StateAfterGood(t, l, k, t.generation);
    var p := Snapshot.ParseSnapshot(file, o, codec, crc).value;
    SnapshotTheorems.LoadedIsGood(p, now);
    LoadedSources(p, now);
    RunKeepsInvariant(Snapshot.Loaded(p, now), more, config);
  }

  lemma LoadedSources(p: Snapshot.Parsed, now: int)
    ensures Snapshot.Loaded(p, now).sources == p.state.sources
  {
  }

  lemma SavedCounters(st: State, t: State)
    requires Saved(st, t)
    ensures t.nextSequence == st.nextSequence
  {
    hide SavedModule;
  }
}
