/** Any prefix of a saved record stream rebuilds a state that satisfies the registry invariant. */
module SnapshotRecovery {
  import opened Bytes
  import opened Ordering
  import opened Consensus
  import opened Capability
  import opened Compatibility
  import opened RegistryState
  import opened Mutations
  import opened RegistryInvariant
  import opened SnapshotState

  // ----- Maps one key larger -----

  lemma RestrictMore<K, V>(m: map<K, V>, keys: seq<K>, n: nat)
    requires n < |keys| && keys[n] in m
    ensures Restrict(m, keys[..n + 1]) == Restrict(m, keys[..n])[keys[n] := m[keys[n]]]
  {
    assert keys[..n + 1] == keys[..n] + [keys[n]];
  }

  lemma RestrictIndexMore<K>(m: map<K, nat>, ids: seq<nat>, n: nat, key: K)
    requires n < |ids| && key in m && m[key] == ids[n]
    requires forall k :: k in m && m[k] == ids[n] ==> k == key
    ensures RestrictIndex(m, ids[..n + 1]) == RestrictIndex(m, ids[..n])[key := ids[n]]
  {
    assert ids[..n + 1] == ids[..n] + [ids[n]];
  }

  lemma RestrictAll<K, V>(m: map<K, V>, keys: seq<K>)
    requires forall k :: k in m ==> k in keys
    ensures Restrict(m, keys) == m
  {
  }

  // ----- One more record -----

  lemma SourceStep(st: State, l: Listing, p: Progress, g: nat, n: nat)
    requires Inv(st, n) && ListingOf(l, st) && Within(p, st, l) && p.sources < |l.sources|
    ensures Absorb(Arrived(st, l, p, g), SourceEntry(st.sources[l.sources[p.sources]]), g)
         == Ok(Arrived(st, l, p.(sources := p.sources + 1), g))
  {
    hide RecordsOk, PortsOk, AttachmentsOk, ThresholdsOk, RulesOk, ModuleIndexOk, Restrict, RestrictIndex;
    var id := l.sources[p.sources];
    var s := st.sources[id];
    RestrictMore(st.sources, l.sources, p.sources);
    RestrictIndexMore(st.sourceIdByName, l.sources, p.sources, s.name);
  }

  lemma ModuleStep(st: State, l: Listing, p: Progress, g: nat, n: nat)
    requires Inv(st, n) && ListingOf(l, st) && Within(p, st, l) && p.modules < |l.modules|
    ensures Absorb(Arrived(st, l, p, g), ModuleEntry(st.modules[l.modules[p.modules]]), g)
         == Ok(Arrived(st, l, p.(modules := p.modules + 1), g))
  {
    hide RecordOk, PortsOk, AttachmentsOk, ThresholdsOk, RulesOk, SourcesOk, Restrict, RestrictIndex;
    var uid := l.modules[p.modules];
    var m := st.modules[uid];
    assert m.uid == uid by { RecordUid(st, uid, n); }
    RestrictMore(st.modules, l.modules, p.modules);
    RestrictIndexMore(st.moduleUidByKey, l.modules, p.modules, m.key);
    NotYet(st.modules, l.modules, p.modules);
  }

  lemma RecordUid(st: State, uid: nat, n: nat)
    requires Inv(st, n) && uid in st.modules
    ensures st.modules[uid].uid == uid
  {
  }

  lemma NotYet<K(!new), V>(m: map<K, V>, keys: seq<K>, n: nat)
    requires n < |keys| && Lists(keys, m.Keys)
    ensures keys[n] !in Restrict(m, keys[..n])
  {
  }

  lemma PortStep(st: State, l: Listing, p: Progress, g: nat, n: nat)
    requires Inv(st, n) && ListingOf(l, st) && Within(p, st, l) && p.ports < |l.ports|
    ensures Absorb(Arrived(st, l, p, g), PortEntry(st.ports[l.ports[p.ports]]), g)
         == Ok(Arrived(st, l, p.(ports := p.ports + 1), g))
  {
    hide RecordsOk, ClaimsOk, AttachmentsOk, ThresholdsOk, RulesOk, SourcesOk, ModuleIndexOk, Restrict, RestrictIndex;
    RestrictMore(st.ports, l.ports, p.ports);
  }

  lemma AttachmentStep(st: State, l: Listing, p: Progress, g: nat, n: nat)
    requires Inv(st, n) && ListingOf(l, st) && Within(p, st, l) && p.slots < |l.slots|
    ensures Absorb(Arrived(st, l, p, g), AttachmentEntry(st.attachments[l.slots[p.slots]]), g)
         == Ok(Arrived(st, l, p.(slots := p.slots + 1), g))
  {
    hide RecordsOk, PortsOk, ThresholdsOk, RulesOk, SourcesOk, ModuleIndexOk, Restrict, RestrictIndex;
    RestrictMore(st.attachments, l.slots, p.slots);
  }

  lemma ThresholdStep(st: State, l: Listing, p: Progress, g: nat)
    requires Within(p, st, l) && p.thresholds < |st.thresholds|
    ensures Absorb(Arrived(st, l, p, g), ThresholdEntry(st.thresholds[p.thresholds]), g)
         == Ok(Arrived(st, l, p.(thresholds := p.thresholds + 1), g))
  {
    hide Restrict, RestrictIndex;
    assert st.thresholds[..p.thresholds + 1] == st.thresholds[..p.thresholds] + [st.thresholds[p.thresholds]];
  }

  lemma RuleStep(st: State, l: Listing, p: Progress, g: nat, n: nat)
    requires Inv(st, n) && ListingOf(l, st) && Within(p, st, l) && p.rules < |l.rules|
    ensures Absorb(Arrived(st, l, p, g), RuleEntry(st.rules[l.rules[p.rules]]), g)
         == Ok(Arrived(st, l, p.(rules := p.rules + 1), g))
  {
    hide RecordsOk, PortsOk, AttachmentsOk, ThresholdsOk, SourcesOk, ModuleIndexOk, Restrict, RestrictIndex;
    RestrictMore(st.rules, l.rules, p.rules);
  }

  // ----- Where record n of the stream belongs -----

  function Total(st: State, l: Listing): nat {
    |l.sources| + |l.modules| + |l.ports| + |l.slots| + |st.thresholds| + |l.rules|
  }

  lemma RecordsShape(st: State, l: Listing)
    requires ListingOf(l, st)
    ensures |StateRecords(st, l)| == 1 + Total(st, l)
    ensures StateRecords(st, l)[0] == HeaderEntry(HeaderOf(st))
  {
  }

  /** The record after the first n is the next entry of the first incomplete table. */
  lemma NextRecord(st: State, l: Listing, n: nat)
    requires ListingOf(l, st) && n < Total(st, l)
    ensures n + 1 < |StateRecords(st, l)| && Within(ProgressAt(st, l, n), st, l)
    ensures var p := ProgressAt(st, l, n);
      var q := ProgressAt(st, l, n + 1);
      var r := StateRecords(st, l)[n + 1];
      if p.sources < |l.sources| then r == SourceEntry(st.sources[l.sources[p.sources]])
        && q == p.(sources := p.sources + 1)
      else if p.modules < |l.modules| then
        r == ModuleEntry(st.modules[l.modules[p.modules]]) && q == p.(modules := p.modules + 1)
      else if p.ports < |l.ports| then r == PortEntry(st.ports[l.ports[p.ports]]) && q == p.(ports := p.ports + 1)
      else if p.slots < |l.slots| then
        r == AttachmentEntry(st.attachments[l.slots[p.slots]]) && q == p.(slots := p.slots + 1)
      else if p.thresholds < |st.thresholds| then
        r == ThresholdEntry(st.thresholds[p.thresholds]) && q == p.(thresholds := p.thresholds + 1)
      else p.rules < |l.rules| && r == RuleEntry(st.rules[l.rules[p.rules]]) && q == p.(rules := p.rules + 1)
  {
    ProgressNext(st, l, n);
    var p := ProgressAt(st, l, n);
    RecordsShape(st, l);
    SectionIndex([HeaderEntry(HeaderOf(st))], SourceEntries(st, l.sources), ModuleEntries(st, l.modules),
                 PortEntries(st, l.ports), AttachmentEntries(st, l.slots), ThresholdEntries(st),
                   RuleEntries(st, l.rules), n + 1);
    var a := |l.sources|;
    var b := a + |l.modules|;
    var c := b + |l.ports|;
    var d := c + |l.slots|;
    hide ListingOf;
    assert p.sources < |l.sources| ==> p.sources == n;
    assert p.sources == |l.sources| && p.modules < |l.modules| ==> p.modules == n - a;
  }

  /** Where position i of seven joined lists lies. */
  lemma SectionIndex<T>(h: seq<T>, s: seq<T>, m: seq<T>, o: seq<T>, t: seq<T>, u: seq<T>, v: seq<T>, i: nat)
    requires |h| <= i < |h + s + m + o + t + u + v|
    ensures var all := h + s + m + o + t + u + v;
      var a := |h| + |s|;
      var b := a + |m|;
      var c := b + |o|;
      var d := c + |t|;
      var e := d + |u|;
      all[i] == if i < a then s[i - |h|] else if i < b then m[i - a] else if i < c then o[i - b]
                else if i < d then t[i - c] else if i < e then u[i - d] else v[i - e]
  {
  }

  lemma ProgressNext(st: State, l: Listing, n: nat)
    requires n < Total(st, l)
    ensures Within(ProgressAt(st, l, n), st, l)
    ensures var p := ProgressAt(st, l, n);
      var q := ProgressAt(st, l, n + 1);
      var a := |l.sources|;
      var b := a + |l.modules|;
      var c := b + |l.ports|;
      var d := c + |l.slots|;
      var e := d + |st.thresholds|;
      if p.sources < |l.sources| then p.sources == n && q == p.(sources := p.sources + 1)
      else if p.modules < |l.modules| then a <= n < b && p.modules == n - a && q == p.(modules := p.modules + 1)
      else if p.ports < |l.ports| then b <= n < c && p.ports == n - b && q == p.(ports := p.ports + 1)
      else if p.slots < |l.slots| then c <= n < d && p.slots == n - c && q == p.(slots := p.slots + 1)
      else if p.thresholds < |st.thresholds| then d <= n < e && p.thresholds == n - d
        && q == p.(thresholds := p.thresholds + 1)
      else p.rules < |l.rules| && e <= n && p.rules == n - e && q == p.(rules := p.rules + 1)
  {
  }

  lemma AbsorbNext(st: State, l: Listing, g: nat, n: nat, k: nat)
    requires Inv(st, n) && ListingOf(l, st) && k < Total(st, l)
    ensures k + 1 < |StateRecords(st, l)| && Within(ProgressAt(st, l, k), st, l)
            && Within(ProgressAt(st, l, k + 1), st, l)
    ensures Absorb(Arrived(st, l, ProgressAt(st, l, k), g), StateRecords(st, l)[k + 1], g)
         == Ok(Arrived(st, l, ProgressAt(st, l, k + 1), g))
  {
    hide Inv, ListingOf, StateRecords, Absorb, Arrived, ProgressAt;
    NextRecord(st, l, k);
    var p := ProgressAt(st, l, k);
    if p.sources < |l.sources| {
      SourceStep(st, l, p, g, n);
    } else if p.modules < |l.modules| {
      ModuleStep(st, l, p, g, n);
    } else if p.ports < |l.ports| {
      PortStep(st, l, p, g, n);
    } else if p.slots < |l.slots| {
      AttachmentStep(st, l, p, g, n);
    } else if p.thresholds < |st.thresholds| {
      ThresholdStep(st, l, p, g);
    } else {
      RuleStep(st, l, p, g, n);
    }
  }

  lemma StartOfLoad(st: State, l: Listing, g: nat)
    requires ListingOf(l, st)
    ensures Within(ProgressAt(st, l, 0), st, l)
    ensures Arrived(st, l, ProgressAt(st, l, 0), g) == Emptied(HeaderOf(st), g)
  {
  }

  /** Folding the header and k more records gives exactly the tables those k records name. */
  lemma {:induction false} PrefixFold(start: State, st: State, l: Listing, g: nat, n: nat, k: nat)
    requires Inv(st, n) && ListingOf(l, st) && k <= Total(st, l)
    ensures k + 1 <= |StateRecords(st, l)| && Within(ProgressAt(st, l, k), st, l)
    ensures Fold(start, StateRecords(st, l)[..k + 1], g) == Ok(Arrived(st, l, ProgressAt(st, l, k), g))
  {
    hide *;
    RecordsShape(st, l);
    var records := StateRecords(st, l);
    if k == 0 {
      StartOfLoad(st, l, g);
      FoldHeader(start, records, g);
    } else {
      PrefixFold(start, st, l, g, n, k - 1);
      AbsorbNext(st, l, g, n, k - 1);
      FoldLast(start, records, g, k);
    }
  }

  lemma FoldHeader(start: State, records: seq<Record>, g: nat)
    requires |records| >= 1 && records[0].HeaderEntry?
    ensures Fold(start, records[..1], g) == Ok(Emptied(records[0].header, g))
  {
    assert records[..1][..0] == [];
    assert Fold(start, [], g) == Ok(start);
  }

  lemma FoldLast(start: State, records: seq<Record>, g: nat, k: nat)
    requires k < |records| && Fold(start, records[..k], g).Ok?
    ensures Fold(start, records[..k + 1], g) == Absorb(Fold(start, records[..k], g).value, records[k], g)
  {
    assert records[..k + 1][..k] == records[..k];
  }

  // ----- The invariant of a partly loaded state -----

  lemma ProgressIsOrdered(st: State, l: Listing, k: nat)
    ensures Within(ProgressAt(st, l, k), st, l) && InOrder(ProgressAt(st, l, k), st, l)
  {
  }

  lemma PartialSources(st: State, l: Listing, p: Progress, n: nat)
    requires Inv(st, n) && ListingOf(l, st) && Within(p, st, l)
    ensures SourcesOk(Restrict(st.sources, l.sources[..p.sources]),
                      RestrictIndex(st.sourceIdByName, l.sources[..p.sources]), st.nextSourceId, n)
  {
    hide RecordsOk, PortsOk, AttachmentsOk, ThresholdsOk, RulesOk, ModuleIndexOk;
  }

  lemma PartialModules(st: State, l: Listing, p: Progress, n: nat)
    requires Inv(st, n) && ListingOf(l, st) && Within(p, st, l)
    ensures ModuleIndexOk(Restrict(st.modules, l.modules[..p.modules]),
                          RestrictIndex(st.moduleUidByKey, l.modules[..p.modules]), st.nextModuleUid)
  {
    hide RecordsOk, PortsOk, AttachmentsOk, ThresholdsOk, RulesOk, SourcesOk;
  }

  lemma PartialTables(st: State, l: Listing, p: Progress, n: nat)
    requires Inv(st, n) && ListingOf(l, st) && Within(p, st, l) && (p.slots > 0 ==> p.modules == |l.modules|)
    ensures var e := Epochs(st.sources);
      var modules := Restrict(st.modules, l.modules[..p.modules]);
      && RecordsOk(modules, e, n) && PortsOk(Restrict(st.ports, l.ports[..p.ports]), e, n)
      && AttachmentsOk(Restrict(st.attachments, l.slots[..p.slots]), modules, e, n)
      && ThresholdsOk(st.thresholds[..p.thresholds], e, n)
      && RulesOk(Restrict(st.rules, l.rules[..p.rules]), st.nextRuleId, e, n)
  {
    hide RecordOk, ClaimsOk, SourcesOk, ModuleIndexOk, Known, Epochs;
    if p.slots > 0 {
      assert l.modules[..p.modules] == l.modules;
      RestrictAll(st.modules, l.modules);
    }
  }

  lemma NothingYet(st: State, l: Listing, p: Progress, e: map<nat, nat>, n: nat)
    requires Within(p, st, l)
    requires p.modules == 0 && p.ports == 0 && p.slots == 0 && p.thresholds == 0 && p.rules == 0
    ensures var modules := Restrict(st.modules, l.modules[..p.modules]);
      && RecordsOk(modules, e, n) && PortsOk(Restrict(st.ports, l.ports[..p.ports]), e, n)
      && AttachmentsOk(Restrict(st.attachments, l.slots[..p.slots]), modules, e, n)
      && ThresholdsOk(st.thresholds[..p.thresholds], e, n)
      && RulesOk(Restrict(st.rules, l.rules[..p.rules]), st.nextRuleId, e, n)
  {
  }

  /** Whatever k records arrived, the rebuilt tables satisfy the invariant. */
  lemma PartialKeepsInvariant(st: State, l: Listing, p: Progress, g: nat, n: nat)
    requires Inv(st, n) && ListingOf(l, st) && Within(p, st, l) && InOrder(p, st, l)
    ensures Inv(Arrived(st, l, p, g), n)
  {
    PartialSources(st, l, p, n);
    PartialModules(st, l, p, n);
    var e := Epochs(Restrict(st.sources, l.sources[..p.sources]));
    if p.modules > 0 || p.ports > 0 || p.slots > 0 || p.thresholds > 0 || p.rules > 0 {
      PartialTables(st, l, p, n);
      assert l.sources[..p.sources] == l.sources;
      AllSources(st, l);
    } else {
      NothingYet(st, l, p, e, n);
    }
    hide SourcesOk, RecordsOk, PortsOk, AttachmentsOk, ThresholdsOk, RulesOk, ModuleIndexOk, Restrict, RestrictIndex,
         Lists, Epochs;
  }

  lemma AllSources(st: State, l: Listing)
    requires ListingOf(l, st)
    ensures Restrict(st.sources, l.sources) == st.sources
  {
    RestrictAll(st.sources, l.sources);
  }
}
