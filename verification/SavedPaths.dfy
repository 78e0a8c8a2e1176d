/**
 * Whether a lifecycle history is still a path after a save and a load: src/snapshot.cpp sorts it by sequence and wall
 * clock.
 */
module SavedPaths {
  import opened Bytes
  import opened Ordering
  import opened Lifecycle
  import opened RegistryState
  import opened Mutations
  import opened RegistryInvariant
  import opened Runs
  import opened Samples
  import opened LifecyclePath
  import opened SnapshotSaved
  import opened SnapshotState
  import RecordStream
  import Snapshot
  import SnapshotRecovery
  import SnapshotTheorems

  // ----- The order in which events happen -----

  /** By sequence, then incarnation, then birth first: the order one call logs its events in. */
  predicate Earlier(d: LifecycleEvent, e: LifecycleEvent) {
    d.sequence < e.sequence
    || (d.sequence == e.sequence &&
        (d.incarnation < e.incarnation || (d.incarnation == e.incarnation && Birth(d) && !Birth(e))))
  }

  lemma {:induction false} AdjacentSorts(events: seq<LifecycleEvent>, i: nat, j: nat)
    requires forall k :: 0 < k < |events| ==> Earlier(events[k - 1], events[k])
    requires i < j < |events|
    ensures Earlier(events[i], events[j])
  {
    hide Birth;
    if i + 1 < j {
      AdjacentSorts(events, i, j - 1);
    }
  }

  /** A path in time is strictly in that order, so it is determined by its events. */
  lemma PathIsSorted(events: seq<LifecycleEvent>)
    requires Path(events) && Timed(events)
    ensures StrictlySorted(events, Earlier)
  {
    forall k | 0 < k < |events| ensures Earlier(events[k - 1], events[k]) {
      assert Follows(events[k - 1], events[k]) && InTime(events[k - 1], events[k]);
    }
    hide Birth;
    forall i, j | 0 <= i < j < |events| ensures Earlier(events[i], events[j]) {
      AdjacentSorts(events, i, j);
    }
  }

  // ----- What std::sort may do -----

  ghost predicate StandInOrder(s: seq<LifecycleEvent>, d: LifecycleEvent, e: LifecycleEvent) {
    exists a, b :: 0 <= a < b < |s| && s[a] == d && s[b] == e
  }

  /** The sort left events of one stamp in the order it found them. */
  ghost predicate TiesKept(s: seq<LifecycleEvent>, t: seq<LifecycleEvent>) {
    forall i, j :: 0 <= i < j < |t| && t[i].sequence == t[j].sequence ==> StandInOrder(s, t[i], t[j])
  }

  lemma TiesOfSelf(s: seq<LifecycleEvent>)
    ensures TiesKept(s, s)
  {
    forall i, j | 0 <= i < j < |s| ensures StandInOrder(s, s[i], s[j]) {
    }
  }

  lemma EarlierIsAsymmetric()
    ensures Asymmetric(Earlier)
  {
  }

  lemma SortedApart(s: seq<LifecycleEvent>, d: LifecycleEvent, e: LifecycleEvent)
    requires StrictlySorted(s, Earlier) && d in s && e in s && d != e
    ensures Earlier(d, e) || Earlier(e, d)
  {
    var i :| 0 <= i < |s| && s[i] == d;
    var j :| 0 <= j < |s| && s[j] == e;
  }

  lemma Unrepeated(s: seq<LifecycleEvent>, t: seq<LifecycleEvent>, i: nat, j: nat)
    requires StrictlySorted(s, Earlier) && multiset(t) == multiset(s) && i < j < |t|
    ensures t[i] in s && t[j] in s && t[i] != t[j]
  {
    EarlierIsAsymmetric();
    StrictOnce(s, Earlier);
    SameMembers(s, t);
    Repeated(t, i, j);
  }

  /** Inside one call's events, only the logged order is a path. */
  lemma PathIsEarlier(s: seq<LifecycleEvent>, t: seq<LifecycleEvent>, k: nat)
    requires StrictlySorted(s, Earlier) && EventsArranged(s, t) && Path(t) && 0 < k < |t|
    ensures Earlier(t[k - 1], t[k])
  {
    Unrepeated(s, t, k - 1, k);
    SortedApart(s, t[k - 1], t[k]);
    assert Follows(t[k - 1], t[k]);
    assert t[k - 1].sequence <= t[k].sequence;
  }

  lemma TiesAreEarlier(s: seq<LifecycleEvent>, t: seq<LifecycleEvent>, i: nat, j: nat)
    requires StrictlySorted(s, Earlier) && EventsArranged(s, t) && TiesKept(s, t) && i < j < |t|
    ensures Earlier(t[i], t[j])
  {
    assert t[i].sequence <= t[j].sequence;
    if t[i].sequence == t[j].sequence {
      assert StandInOrder(s, t[i], t[j]);
      var a, b :| 0 <= a < b < |s| && s[a] == t[i] && s[b] == t[j];
    }
  }

  /** A sorted history is still a path exactly when the sort kept the order of equal stamps, and then nothing moved. */
  lemma SortedPathExactly(s: seq<LifecycleEvent>, t: seq<LifecycleEvent>)
    requires Path(s) && Timed(s) && EventsArranged(s, t)
    ensures Path(t) <==> TiesKept(s, t)
    ensures TiesKept(s, t) <==> t == s
  {
    PathIsSorted(s);
    EarlierIsAsymmetric();
    TiesOfSelf(s);
    hide Path, TiesKept, Earlier, Birth;
    if Path(t) || TiesKept(s, t) {
      if TiesKept(s, t) {
        forall i, j | 0 <= i < j < |t| ensures Earlier(t[i], t[j]) {
          TiesAreEarlier(s, t, i, j);
        }
      } else {
        forall k | 0 < k < |t| ensures Earlier(t[k - 1], t[k]) {
          PathIsEarlier(s, t, k);
        }
        forall i, j | 0 <= i < j < |t| ensures Earlier(t[i], t[j]) {
          AdjacentSorts(t, i, j);
        }
      }
      StrictlySortedUnique(t, s, Earlier);
    }
  }

  // ----- Whatever the sort does -----

  /** No call left two events in the history. */
  predicate NoTies(s: seq<LifecycleEvent>) { forall i :: 0 < i < |s| ==> s[i - 1].sequence != s[i].sequence }

  lemma {:induction false} TimeGoesOn(s: seq<LifecycleEvent>, i: nat, j: nat)
    requires Timed(s) && i < j < |s|
    ensures s[i].sequence <= s[j].sequence && (NoTies(s) ==> s[i].sequence < s[j].sequence)
  {
    hide Birth;
    assert InTime(s[j - 1], s[j]);
    if i < j - 1 {
      TimeGoesOn(s, i, j - 1);
    }
  }

  lemma NoTiesToKeep(s: seq<LifecycleEvent>, t: seq<LifecycleEvent>)
    requires Path(s) && Timed(s) && EventsArranged(s, t) && NoTies(s)
    ensures TiesKept(s, t)
  {
    PathIsSorted(s);
    hide Path, Birth, Earlier;
    forall i, j | 0 <= i < j < |t| ensures t[i].sequence != t[j].sequence {
      Unrepeated(s, t, i, j);
      var a :| 0 <= a < |s| && s[a] == t[i];
      var b :| 0 <= b < |s| && s[b] == t[j];
      TimeGoesOn(s, if a < b then a else b, if a < b then b else a);
    }
  }

  function Swapped(s: seq<LifecycleEvent>, i: nat): seq<LifecycleEvent>
    requires 0 < i < |s|
  {
    s[i - 1 := s[i]][i := s[i - 1]]
  }

  /** Two neighbours of one stamp may be written in either order; one of the two is no path. */
  lemma TieCanBreak(s: seq<LifecycleEvent>, i: nat)
    requires Path(s) && Timed(s) && 0 < i < |s| && s[i - 1].sequence == s[i].sequence
    ensures EventsArranged(s, Swapped(s, i)) && !Path(Swapped(s, i))
  {
    PathIsSorted(s);
    var t := Swapped(s, i);
    assert t[i - 1] != s[i - 1] by { assert Earlier(s[i - 1], s[i]); }
    hide Path, Birth, Earlier, TiesKept;
    forall a, b | 0 <= a < b < |t| ensures t[a].sequence <= t[b].sequence {
      TimeGoesOn(s, a, b);
    }
    SortedPathExactly(s, t);
  }

  /** Every order the sort may leave is a path exactly when no call left two events in the history. */
  lemma AlwaysPathExactly(s: seq<LifecycleEvent>)
    requires Path(s) && Timed(s)
    ensures (forall t :: EventsArranged(s, t) ==> Path(t)) <==> NoTies(s)
  {
    hide Path, Timed, EventsArranged, TiesKept;
    if NoTies(s) {
      forall t | EventsArranged(s, t) ensures Path(t) {
        NoTiesToKeep(s, t);
        SortedPathExactly(s, t);
      }
    } else {
      var i :| 0 < i < |s| && s[i - 1].sequence == s[i].sequence;
      TieCanBreak(s, i);
    }
  }

  /** The two events of a registration carry one stamp; in the other order, which the sort allows, they are no path. */
  lemma RegistrationCanBeReversed(a: RegistryState.Authority, s: Stamp)
    ensures var birth := EventOf(Discovered, Discovered, 1, a, s);
      var registered := EventOf(Discovered, Registered, 1, a, s);
      && EnsureRegistered(NewModule([109], 1, a, s), a, s).lifecycle == [birth, registered]
      && Path([birth, registered]) && Timed([birth, registered])
      && EventsArranged([birth, registered], [registered, birth]) && !Path([registered, birth])
      && !EventBefore(birth, registered) && !EventBefore(registered, birth)
  {
    var birth := EventOf(Discovered, Discovered, 1, a, s);
    var registered := EventOf(Discovered, Registered, 1, a, s);
    assert [birth] + [registered] == [birth, registered];
    assert [registered, birth] == [registered] + [birth];
    assert !Follows([registered, birth][0], [registered, birth][1]);
  }

  // ----- Every save of a state -----

  /** The save that leaves every list as it is. */
  function Resaved(st: State): State {
    st.(modules := map uid | uid in st.modules :: st.modules[uid].(seriesCounts := Recount(st.modules[uid].samples)))
  }

  lemma ResavedModule(st: State, uid: nat, n: nat)
    requires Inv(st, n) && uid in st.modules && Timed(st.modules[uid].lifecycle)
    ensures SavedModule(st.modules[uid], Resaved(st).modules[uid])
  {
    hide Recount, Known, SourcesOk, PortsOk, AttachmentsOk, ThresholdsOk, RulesOk, ModuleIndexOk, InTime;
    var r := st.modules[uid];
    assert RecordOk(r, uid, Epochs(st.sources), n);
    forall i, j | 0 <= i < j < |r.lifecycle| ensures r.lifecycle[i].sequence <= r.lifecycle[j].sequence {
      TimeGoesOn(r.lifecycle, i, j);
    }
  }

  lemma ResavedIsSaved(st: State)
    requires Good(st) && PathsOk(st.modules, st.nextSequence)
    ensures Saved(st, Resaved(st))
  {
    hide SavedModule, Recount, Path, Inv;
    assert Inv(st, st.nextSequence);
    forall uid | uid in st.modules ensures SavedModule(st.modules[uid], Resaved(st).modules[uid]) {
      assert PathOk(st.modules[uid], st.nextSequence);
      ResavedModule(st, uid, st.nextSequence);
    }
  }

  function Reordered(t: State, uid: nat, events: seq<LifecycleEvent>): State
    requires uid in t.modules
  {
    t.(modules := t.modules[uid := t.modules[uid].(lifecycle := events)])
  }

  lemma ReorderedIsSaved(st: State, t: State, uid: nat, events: seq<LifecycleEvent>)
    requires Saved(st, t) && uid in st.modules && EventsArranged(st.modules[uid].lifecycle, events)
    ensures Saved(st, Reordered(t, uid, events))
  {
    hide ClaimsArranged, SamplesArranged, EventsArranged, Recount;
    var r, u := st.modules[uid], Reordered(t, uid, events);
    assert SavedModule(r, t.modules[uid]);
    assert SavedModule(r, u.modules[uid]);
    forall id | id in st.modules ensures SavedModule(st.modules[id], u.modules[id]) {
      assert SavedModule(st.modules[id], t.modules[id]);
    }
  }

  /**
   * Whatever order a save leaves ties in, these modules keep paths for histories, exactly when none of them retains two
   * events of one call. It can be checked before saving.
   */
  lemma EverySavePaths(st: State, ids: set<nat>)
    requires Good(st) && PathsOk(st.modules, st.nextSequence) && ids <= st.modules.Keys
    ensures (forall t :: Saved(st, t) ==> forall uid :: uid in ids ==> PathOk(t.modules[uid], st.nextSequence))
       <==> (forall uid :: uid in ids ==> NoTies(st.modules[uid].lifecycle))
  {
    hide Good, PathOk, Path, Timed, EventsArranged, SavedModule, NoTies, Resaved, Reordered, TiesKept;
    if forall uid :: uid in ids ==> NoTies(st.modules[uid].lifecycle) {
      forall t, uid | Saved(st, t) && uid in ids ensures PathOk(t.modules[uid], st.nextSequence) {
        UntiedHistory(st.modules[uid], t.modules[uid], st.nextSequence);
      }
    } else {
      var uid :| uid in ids && !NoTies(st.modules[uid].lifecycle);
      TiedHistory(st, uid);
    }
  }

  lemma UntiedHistory(r: ModuleRecord, t: ModuleRecord, n: nat)
    requires PathOk(r, n) && SavedModule(r, t) && NoTies(r.lifecycle)
    ensures PathOk(t, n) && TiesKept(r.lifecycle, t.lifecycle)
  {
    hide ClaimsArranged, SamplesArranged, Path, Timed, EventsArranged, TiesKept, NoTies;
    NoTiesToKeep(r.lifecycle, t.lifecycle);
    SavedHistory(r, t, n);
  }

  lemma TiedHistory(st: State, uid: nat)
    requires Good(st) && PathsOk(st.modules, st.nextSequence)
    requires uid in st.modules && !NoTies(st.modules[uid].lifecycle)
    ensures exists t :: Saved(st, t) && uid in t.modules && !PathOk(t.modules[uid], st.nextSequence)
  {
    hide Good, Path, Timed, EventsArranged, SavedModule, Resaved;
    var s := st.modules[uid].lifecycle;
    assert PathOk(st.modules[uid], st.nextSequence);
    var i :| 0 < i < |s| && s[i - 1].sequence == s[i].sequence;
    TieCanBreak(s, i);
    ResavedIsSaved(st);
    ReorderedIsSaved(st, Resaved(st), uid, Swapped(s, i));
    assert Saved(st, Reordered(Resaved(st), uid, Swapped(s, i)));
  }

  // ----- Save, crash, load, run on -----

  lemma RecoveredModules(t: State, l: Listing, k: nat, uid: nat)
    requires ListingOf(l, t) && k <= 1 + SnapshotRecovery.Total(t, l)
    requires uid in SnapshotTheorems.StateAfter(t, l, k, t.generation).modules
    ensures uid in t.modules && SnapshotTheorems.StateAfter(t, l, k, t.generation).modules[uid] == t.modules[uid]
    ensures SnapshotTheorems.StateAfter(t, l, k, t.generation).nextSequence == t.nextSequence
  {
    if k > 0 {
      SnapshotTheorems.StateAfterSome(t, l, k, t.generation);
    }
  }

  lemma LoadedModules(p: Snapshot.Parsed, now: int)
    requires p.state.nextSequence >= 1
    ensures var next := Snapshot.Loaded(p, now);
      && next.nextSequence == p.state.nextSequence && next.modules.Keys == p.state.modules.Keys
      && forall uid :: uid in next.modules ==>
           && next.modules[uid].lifecycle == p.state.modules[uid].lifecycle
           && next.modules[uid].state == p.state.modules[uid].state
           && next.modules[uid].incarnation == p.state.modules[uid].incarnation
  {
  }

  lemma SavedHistory(r: ModuleRecord, t: ModuleRecord, n: nat)
    requires PathOk(r, n) && SavedModule(r, t)
    ensures PathOk(t, n) <==> TiesKept(r.lifecycle, t.lifecycle)
    ensures t.state == r.state
  {
    hide ClaimsArranged, SamplesArranged, Path, Timed, TiesKept, EventsArranged;
    SortedPathExactly(r.lifecycle, t.lifecycle);
  }

  /** The sort kept ties in every module that came back. */
  ghost predicate AllTiesKept(st: State, t: State, recovered: State) {
    forall uid :: uid in recovered.modules ==>
      uid in st.modules && uid in t.modules && TiesKept(st.modules[uid].lifecycle, t.modules[uid].lifecycle)
  }

  /** None of the recovered modules retained two events of one call. */
  ghost predicate Untied(st: State, recovered: State) {
    forall uid :: uid in recovered.modules && uid in st.modules ==> NoTies(st.modules[uid].lifecycle)
  }

  lemma UntiedKeeps(st: State, t: State, l: Listing, k: nat)
    requires PathsOk(st.modules, st.nextSequence) && Saved(st, t) && ListingOf(l, t)
    requires k <= 1 + SnapshotRecovery.Total(t, l)
    requires Untied(st, SnapshotTheorems.StateAfter(t, l, k, t.generation))
    ensures AllTiesKept(st, t, SnapshotTheorems.StateAfter(t, l, k, t.generation))
  {
    hide PathOk, TiesKept, SavedModule, SnapshotTheorems.StateAfter, SnapshotRecovery.Total, ListingOf, NoTies;
    var recovered := SnapshotTheorems.StateAfter(t, l, k, t.generation);
    forall uid | uid in recovered.modules
      ensures uid in st.modules && uid in t.modules && TiesKept(st.modules[uid].lifecycle, t.modules[uid].lifecycle)
    {
      RecoveredModules(t, l, k, uid);
      assert SavedModule(st.modules[uid], t.modules[uid]);
      UntiedHistory(st.modules[uid], t.modules[uid], st.nextSequence);
    }
  }

  lemma LoadedPaths(st: State, t: State, l: Listing, k: nat, p: Snapshot.Parsed, now: int)
    requires PathsOk(st.modules, st.nextSequence) && Saved(st, t) && ListingOf(l, t) && st.nextSequence >= 1
    requires k <= 1 + SnapshotRecovery.Total(t, l) && p.state.nextSequence >= 1
    requires p.state == SnapshotTheorems.StateAfter(t, l, k, t.generation)
    ensures var next := Snapshot.Loaded(p, now);
      PathsOk(next.modules, next.nextSequence) <==> AllTiesKept(st, t, p.state)
  {
    hide PathOk, TiesKept, SavedModule, Snapshot.Loaded, SnapshotTheorems.StateAfter, SnapshotRecovery.Total, ListingOf;
    var next := Snapshot.Loaded(p, now);
    LoadedModules(p, now);
    forall uid | uid in next.modules
      ensures uid in st.modules && uid in t.modules && next.modules[uid].state != Discovered
      ensures PathOk(next.modules[uid], next.nextSequence) <==> TiesKept(st.modules[uid].lifecycle,
                                                                         t.modules[uid].lifecycle)
    {
      RecoveredModules(t, l, k, uid);
      assert SavedModule(st.modules[uid], t.modules[uid]);
      SavedHistory(st.modules[uid], t.modules[uid], st.nextSequence);
      SameHistory(t.modules[uid], next.modules[uid], st.nextSequence);
    }
  }

  lemma SameHistory(r: ModuleRecord, t: ModuleRecord, n: nat)
    requires t.lifecycle == r.lifecycle && t.state == r.state && t.incarnation == r.incarnation
    ensures PathOk(r, n) <==> PathOk(t, n)
  {
    hide Path, Timed;
  }

  /**
   * Run, save, crash, load, run on: the histories of the modules that came back are paths exactly when the sort kept
   * their ties, as it must when none of them retained two events of one call; then every history stays a path in every
   * later state.
   */
  lemma PathsAfterCrash(calls: seq<Call>, t: State, l: Listing, file: seq<Byte>, k: nat, o: Snapshot.Options, now: int,
                        more: seq<Call>, config: Config, codec: Snapshot.Codec, crc: RecordStream.Checksum)
    requires config.maxLifecycleHistory >= 1
    requires Saved(RunCalls(EMPTY_STATE, calls, config), t) && ListingOf(l, t)
    requires SnapshotTheorems.Readable(codec, StateRecords(t, l))
    requires t.generation < 0x1_0000_0000_0000_0000 && o.allowTailRecovery
    requires SnapshotTheorems.SurvivingFile(file, t, l, k, codec, crc)
    ensures k <= 1 + SnapshotRecovery.Total(t, l)
    ensures var loaded := Snapshot.Load(EMPTY_STATE, file, o, now, codec, crc);
      && loaded.Ok?
      && (PathsOk(loaded.value.modules, loaded.value.nextSequence) <==>
          AllTiesKept(RunCalls(EMPTY_STATE, calls, config), t, SnapshotTheorems.StateAfter(t, l, k, t.generation)))
      && (Untied(RunCalls(EMPTY_STATE, calls, config), SnapshotTheorems.StateAfter(t, l, k, t.generation)) ==>
          PathsOk(loaded.value.modules, loaded.value.nextSequence))
      && (PathsOk(loaded.value.modules, loaded.value.nextSequence) ==>
          PathsOk(RunCalls(loaded.value, more, config).modules, RunCalls(loaded.value, more, config).nextSequence))
  {
    hide Good, Saved, ListingOf, RunCalls, Snapshot.Loaded, SnapshotTheorems.StateAfter, SnapshotRecovery.Total,
         SnapshotTheorems.SurvivingFile, SnapshotTheorems.Readable, StateRecords, Snapshot.ParseSnapshot, PathsOk,
         AllTiesKept, Untied;
    var st := RunCalls(EMPTY_STATE, calls, config);
    NoPaths();
    HistoryIsAPath(EMPTY_STATE, calls, config);
    StartedAtOne(calls, config);
    SavedIsGood(st, t);
    assert t.nextSequence == st.nextSequence by { SavedCounters(st, t); }
    SnapshotTheorems.SurvivorsParse(file, t, l, k, o, codec, crc);
    SnapshotTheorems.StateAfterGood(t, l, k, t.generation);
    var p := Snapshot.ParseSnapshot(file, o, codec, crc).value;
    LoadedPaths(st, t, l, k, p, now);
    if Untied(st, SnapshotTheorems.StateAfter(t, l, k, t.generation)) {
      UntiedKeeps(st, t, l, k);
    }
    if PathsOk(Snapshot.Loaded(p, now).modules, Snapshot.Loaded(p, now).nextSequence) {
      HistoryIsAPath(Snapshot.Loaded(p, now), more, config);
    }
  }
}
