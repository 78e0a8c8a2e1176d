/** What snapshot records hold and how a load rebuilds the tables, src/snapshot.cpp:200-549, 770-817. */
module SnapshotState {
  import opened Bytes
  import opened Ordering
  import opened Consensus
  import opened Capability
  import opened Compatibility
  import opened Latch
  import opened Health
  import opened HealthReport
  import opened Samples
  import opened RegistryState
  import opened Mutations

  datatype StateHeader = StateHeader(
    generation: nat, registryIncarnation: nat, nextModuleUid: nat, nextRuleId: nat, nextSourceId: nat,
    nextSequence: nat, mutations: nat, droppedSamples: nat)

  datatype Record =
    | HeaderEntry(header: StateHeader)
    | SourceEntry(source: SourceRecord)
    | ModuleEntry(record: ModuleRecord)
    | PortEntry(port: PortRecord)
    | AttachmentEntry(attachment: AttachmentRecord)
    | ThresholdEntry(threshold: ThresholdRecord)
    | RuleEntry(rule: Rule)

  function TagOf(r: Record): Byte {
    match r
    case HeaderEntry(_) => 1
    case SourceEntry(_) => 2
    case ModuleEntry(_) => 3
    case PortEntry(_) => 4
    case AttachmentEntry(_) => 5
    case ThresholdEntry(_) => 6
    case RuleEntry(_) => 7
  }

  function HeaderOf(st: State): StateHeader {
    StateHeader(st.generation, st.registryIncarnation, st.nextModuleUid, st.nextRuleId, st.nextSourceId,
                st.nextSequence, st.mutations, st.droppedSamples)
  }

  /** decode_state_header: empty tables, and the generation of the file header. */
  function Emptied(h: StateHeader, generation: nat): State {
    State(generation, h.registryIncarnation, h.nextModuleUid, h.nextRuleId, h.nextSourceId, h.nextSequence,
          map[], map[], map[], map[], map[], map[], [], map[], h.mutations, h.droppedSamples)
  }

  /** One round of the parse loop's switch: the name and key indexes are rebuilt as records arrive. */
  function Absorb(st: State, r: Record, generation: nat): Result<State> {
    match r
    case HeaderEntry(h) => Ok(Emptied(h, generation))
    case SourceEntry(s) =>
      Ok(st.(sourceIdByName := st.sourceIdByName[s.name := s.id], sources := st.sources[s.id := s]))
    case ModuleEntry(m) =>
      if m.uid in st.modules then Err(Malformed)
      else Ok(st.(moduleUidByKey := st.moduleUidByKey[m.key := m.uid], modules := st.modules[m.uid := m]))
    case PortEntry(p) => Ok(st.(ports := st.ports[p.key := p]))
    case AttachmentEntry(a) => Ok(st.(attachments := st.attachments[a.slot := a]))
    case ThresholdEntry(t) => Ok(st.(thresholds := st.thresholds + [t]))
    case RuleEntry(rule) => Ok(st.(rules := st.rules[rule.id := rule]))
  }

  function Fold(st: State, records: seq<Record>, generation: nat): Result<State> {
    if records == [] then Ok(st)
    else
      var before :- Fold(st, records[..|records| - 1], generation);
      Absorb(before, records[|records| - 1], generation)
  }

  // ----- What is written -----

  /** The order of the tables on disk; each list names its keys once. */
  datatype Listing = Listing(sources: seq<nat>, modules: seq<nat>, ports: seq<Text>, slots: seq<Text>, rules: seq<nat>)

  ghost predicate Lists<T(!new)>(keys: seq<T>, domain: set<T>) {
    && (forall i, j :: 0 <= i < j < |keys| ==> keys[i] != keys[j])
    && (forall k :: k in keys <==> k in domain)
  }

  ghost predicate ListingOf(l: Listing, st: State) {
    && Lists(l.sources, st.sources.Keys) && Lists(l.modules, st.modules.Keys) && Lists(l.ports, st.ports.Keys)
    && Lists(l.slots, st.attachments.Keys) && Lists(l.rules, st.rules.Keys)
  }

  function SourceEntries(st: State, ids: seq<nat>): seq<Record>
    requires forall k :: k in ids ==> k in st.sources
  {
    seq(|ids|, i requires 0 <= i < |ids| => SourceEntry(st.sources[ids[i]]))
  }

  function ModuleEntries(st: State, uids: seq<nat>): seq<Record>
    requires forall k :: k in uids ==> k in st.modules
  {
    seq(|uids|, i requires 0 <= i < |uids| => ModuleEntry(st.modules[uids[i]]))
  }

  function PortEntries(st: State, keys: seq<Text>): seq<Record>
    requires forall k :: k in keys ==> k in st.ports
  {
    seq(|keys|, i requires 0 <= i < |keys| => PortEntry(st.ports[keys[i]]))
  }

  function AttachmentEntries(st: State, slots: seq<Text>): seq<Record>
    requires forall k :: k in slots ==> k in st.attachments
  {
    seq(|slots|, i requires 0 <= i < |slots| => AttachmentEntry(st.attachments[slots[i]]))
  }

  function ThresholdEntries(st: State): seq<Record> {
    seq(|st.thresholds|, i requires 0 <= i < |st.thresholds| => ThresholdEntry(st.thresholds[i]))
  }

  function RuleEntries(st: State, ids: seq<nat>): seq<Record>
    requires forall k :: k in ids ==> k in st.rules
  {
    seq(|ids|, i requires 0 <= i < |ids| => RuleEntry(st.rules[ids[i]]))
  }

  /** encode_state_records of a state already in its saved form. */
  ghost function StateRecords(st: State, l: Listing): seq<Record>
    requires ListingOf(l, st)
  {
    [HeaderEntry(HeaderOf(st))] + SourceEntries(st, l.sources) + ModuleEntries(st, l.modules) + PortEntries(st, l.ports)
    + AttachmentEntries(st, l.slots) + ThresholdEntries(st) + RuleEntries(st, l.rules)
  }

  // ----- Partly loaded states -----

  /** How many entries of each table have arrived. */
  datatype Progress = Progress(sources: nat, modules: nat, ports: nat, slots: nat, thresholds: nat, rules: nat)

  function Clamp(i: int, n: nat): nat { if i < 0 then 0 else if i > n then n else i }

  /** Progress after the header and n more records. */
  function ProgressAt(st: State, l: Listing, n: nat): Progress {
    var a := |l.sources|;
    var b := a + |l.modules|;
    var c := b + |l.ports|;
    var d := c + |l.slots|;
    var e := d + |st.thresholds|;
    Progress(Clamp(n, a), Clamp(n - a, |l.modules|), Clamp(n - b, |l.ports|), Clamp(n - c, |l.slots|),
             Clamp(n - d, |st.thresholds|), Clamp(n - e, |l.rules|))
  }

  predicate Within(p: Progress, st: State, l: Listing) {
    && p.sources <= |l.sources| && p.modules <= |l.modules| && p.ports <= |l.ports| && p.slots <= |l.slots|
    && p.thresholds <= |st.thresholds| && p.rules <= |l.rules|
  }

  /** A table is started only when the tables before it are complete. */
  predicate InOrder(p: Progress, st: State, l: Listing) {
    && (p.modules > 0 || p.ports > 0 || p.slots > 0 || p.thresholds > 0 || p.rules > 0 ==> p.sources == |l.sources|)
    && (p.slots > 0 ==> p.modules == |l.modules|)
  }

  function Restrict<K, V>(m: map<K, V>, keys: seq<K>): map<K, V> { map k | k in m && k in keys :: m[k] }

  /** The part of an index whose targets have arrived. */
  function RestrictIndex<K>(m: map<K, nat>, ids: seq<nat>): map<K, nat> { map k | k in m && m[k] in ids :: m[k] }

  function Arrived(st: State, l: Listing, p: Progress, generation: nat): State
    requires Within(p, st, l)
  {
    Emptied(HeaderOf(st), generation).(
      sources := Restrict(st.sources, l.sources[..p.sources]),
      sourceIdByName := RestrictIndex(st.sourceIdByName, l.sources[..p.sources]),
      modules := Restrict(st.modules, l.modules[..p.modules]),
      moduleUidByKey := RestrictIndex(st.moduleUidByKey, l.modules[..p.modules]),
      ports := Restrict(st.ports, l.ports[..p.ports]),
      attachments := Restrict(st.attachments, l.slots[..p.slots]),
      thresholds := st.thresholds[..p.thresholds],
      rules := Restrict(st.rules, l.rules[..p.rules]))
  }
}
