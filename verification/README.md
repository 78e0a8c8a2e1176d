# Transceiver registry: a Dafny model

An in-memory evidence registry keeps what several sources say about optical modules: identity claims, capability
declarations, telemetry samples, attachments, thresholds and compatibility rules. Nothing is overwritten. A source revises
its own statements, an epoch retires a source's older statements, an incarnation retires a module's older evidence, and
every answer is computed from what still counts. This project models that registry and proves what its design relies on.

The modules follow the program:

- **Codec.** `Varint`, `Utf8`, `Canonical` (specification), `CanonicalCodec` (the writer and reader objects),
  `ObjectValue`, `Frames`, `Layouts` (the formats byte by byte), `Truncation` (answers to damaged input). Accepted byte
  strings and well-formed values correspond one to one.
- **Digest.** `Sha256`: the buffered object against the one-shot definition.
- **Decisions.** `Consensus`, `Capability`, `Compatibility` with `CompatibilityTheorems`, `Operators`, `Decisions`;
  `Lifecycle`, `Latch`, `Health`, `HealthReport` with `HealthMeaning`, `ReportMeaning`.
- **Registry.** `RegistryState` (tables and arguments), `Validation`, `Mutations` (what each call does to a copy of the
  state), `Registry` (the object and the loops), `Trim`, `TrimLoops`, `TrimAnswers`, `HistoryBounds`, `Answers`,
  `Samples`. What each call does, said without these bodies: `Refusals`, `Effects`, `CallEffects`, `Reconciliation`,
  `Queries`.
- **Whole runs.** `RegistryInvariant`, `InvariantSteps`, `InvariantRegistration`, `Runs`, `Resurrection`,
  `LifecyclePath`, `SampleRuns`, `SampleOrder`, `LatchRuns`, `ListRuns`, `Starvation`, `Reachable`, `EvidenceRuns`,
  `TableRuns`, `Admission`.
- **Snapshot.** `RecordStream`, `SnapshotState`, `SnapshotRecovery`, `Snapshot`, `SnapshotTheorems`, `LoadedEvidence`,
  `SnapshotCuts`, `SnapshotSaved`, `SavedPaths`, `Restarts`, and the records as documents: `FieldNames`, `Documents`,
  `EvidenceDocuments`, `TableDocuments`, `RecordDocuments`, `SnapshotDocuments`, `LostSnapshots`, `TypedRuns`.

The source copies the whole state, changes the copy in place, and publishes it by replacing one pointer. The model does
the same: `State` is a value, `Registry.RegistryImpl` is an object with a `state` field, and its bodies are methods that
change a local copy, loops included. Each is proved against a function in `Mutations`; a run is the fold of that function
over any sequence of calls, which is every interleaving the lock admits. Objects with several fields that change
(`CanonicalWriter`, `CanonicalReader`, `Hasher`) are classes.

Assumptions, stated where they are used: counters are unbounded naturals, so a 64-bit counter is taken never to wrap;
32-bit exhaustion (source ids, epochs, incarnations, the cut of rule ids) is modelled. The history bounds
`max_claim_history` and `max_lifecycle_history` are at least one where a theorem needs them. Runs start from an empty
registry, from a load, or from any state with the invariant a theorem names. The checksum, the SHA-256 compression
function and the decision hash are parameters; statements hold for every choice of them. How a record becomes a payload
is a parameter of the general snapshot theorems, which name what they ask of it (`SnapshotTheorems.Readable`); for the
documents the code writes, all seven kinds of record, `SnapshotDocuments.DocumentsReadable` says exactly when they meet
it. Statements on which sample is the newest of its source ask for samples in commit order, which every reachable state
has (`Reconciliation.StoredInSequence`). In the record documents doubles are a pair of functions between bit patterns
and numbers, with nothing assumed of it but that it returns the numbers the state holds.

Where the code and its documentation disagree, the model follows the code:

- `include/trxreg/snapshot.hpp:38` promises the longest valid prefix of a torn snapshot. A file shorter than its header
  declares is not searched for one; everything is dropped (`SnapshotCuts.WholeFramesLost`, on a concrete registry
  `LostSnapshots.OneByteShortLosesAll`). Over all cuts of a written file the promise holds exactly when the record
  region is whole or no frame of it is (`SnapshotCuts.CutRecoversExactly`).
- `src/snapshot.cpp:479-481` says a snapshot round trip preserves the state. Many stored texts are never checked for
  UTF-8: source descriptions (`src/registry.cpp:642`), transition reasons (`src/registry.cpp:1959`), subkeys and texts of
  capability values, capture references, names, rationales and notes of rules. A document with one ill-formed text is
  written as nothing (`src/snapshot.cpp:78-85`). Some numbers are stored that the reader refuses: monotonic readings from
  2^63, negative counts among the operands of a rule. An intact file reads back exactly when every text is UTF-8, every
  number in range and every record within the limits; otherwise, unless a record is too long, it never loads, tail
  recovery or not (`SnapshotDocuments.FileReadsBackExactly`, over all saves of all runs
  `TypedRuns.SavesReadBackExactly`). One accepted call is enough (`LostSnapshots.IllFormedNeverLoads`, by registration
  `LostSnapshots.AcceptedButNeverLoaded`, by transition `LostSnapshots.ReasonNeverLoaded`).
- `src/snapshot.cpp:934-936` says decisions fenced against the previous process are provably stale after a load. The load
  publishes the saved generation plus one, which the previous process had also reached if exactly one call committed
  after the save; such a fence passes (`SnapshotTheorems.LoadFencesOldHandles`, `Restarts.LostProcessFences`).
- Saving sorts the lifecycle history by sequence and wall clock, which the events of one call share, so a load may bring
  back a history that is no path (`SavedPaths.RegistrationCanBeReversed`). Every save keeps it a path exactly when no call
  left two events in it (`SavedPaths.AlwaysPathExactly`, `SavedPaths.EverySavePaths`); one save does exactly when its sort
  kept the order of equal stamps (`SavedPaths.SortedPathExactly`).
- Module-wide eviction of samples leaves the per-series counters alone, so a counter can exceed what is stored. A new
  sample survives exactly while that surplus is below the series limit (`Samples.FreshSampleKeptExactly`,
  `Samples.FreshSampleCanBeLost`), the surplus never falls, and once it has reached the limit the series stores no sample
  in any later state (`Starvation.StarvedForGood`), until a load recounts it (`SnapshotSaved.RecountHeals`).
- Stale evidence is not final: a source that reconnects, or a module that is replaced, fences what had aged out
  (`EvidenceRuns.StaleNeedNotStay`). Stale stays Stale exactly while some aged-out source is still current
  (`EvidenceRuns.EvidenceOverRuns`).
- The threshold history loop leaves after one round, so one publication evicts at most one retired threshold. The bound
  holds at the end of a run exactly when it held at its start: always from an empty registry, never for a history that a
  load brought in longer (`TableRuns.HistoryBoundExactly`, `TableRuns.HistoryOverRuns`).
- `src/compatibility.cpp:122` answers an undecided `in` with the words that it needs a set operand and a scalar
  attribute, and rules with a scalar key are accepted. The code compares two sets only: on a single enumerator `in` and
  `not_in` never decide, whatever the set (`Operators.ScalarsAreNeverIn`).
- A record longer than the reader's bound is written without complaint and ends the stream on the next load
  (`RecordStream.OversizedFrameEndsStream`).

Worth knowing, although no document says otherwise: a rule with a violated requirement can never hit again, and still
blocks approval while another of its requirements is undetermined. The answer is then Unknown although every extension
that decides the considered rules gives Compatible (`CompatibilityTheorems.RefutedRulesBlockApproval`,
`CompatibilityTheorems.RefutedRuleBlocks`). A full port list in which nothing is superseded refuses even a revision of
one of its own entries, because a place is freed before the revision is stored; a module's list takes it
(`Refusals.FullPortRefusesRevision`, and exactly when a port publication is refused: `Refusals.PortRefused`).

## Model
| member | source | states |
|---|---|---|
| `Varint.Sound` | src/canonical.cpp:558-593 | a varint the reader accepts is byte for byte the minimal encoding of the value it returns |
| `Varint.Complete` | src/canonical.cpp:58-64 | every 64-bit value reads back from its own encoding and leaves what follows untouched |
| `Varint.ZigZagInverse` | src/canonical.cpp:66-74 | zigzag encoding and decoding are inverse on all 64-bit integers, both ways |
| `Varint.Append` | src/canonical.cpp:58-64 | the appending loop adds exactly the minimal encoding |
| `Varint.Read` | src/canonical.cpp:558-593 | the reading loop returns the same value, error and position as the specification |
| `Layouts.VarintExactly` | src/canonical.cpp:58-64 | the encoding of a number is the one sequence of 7-bit groups, low group first, top bit set on all but the last, last group not empty unless alone, that stands for it |
| `Layouts.ZigZagOrder` | src/canonical.cpp:66-74 | zigzag numbers the integers by distance from zero, the negative one of two first |
| `Utf8.IsValid` | src/canonical.cpp:113-165 | the validation loop decides well-formedness |
| `Utf8.ValidIffScalars` | src/canonical.cpp:113-165 | a byte string is accepted if and only if it is a concatenation of encodings of Unicode scalar values (sections 3 and 4 of RFC 3629) |
| `Layouts.ScalarsInOrder` | src/canonical.cpp:113-165 | the byte order of encoded scalars is the order of their code points |
| `Canonical.ReadValueSound` | src/canonical.cpp:626-737 | an accepted value consumed exactly the bytes the writer would produce for it, and it respects every limit |
| `Canonical.ReadValueComplete` | src/canonical.cpp:626-737 | reading the encoding of a well-formed value followed by anything returns the value and stops at the end of the encoding |
| `Canonical.AcceptedIffEncoded` | src/canonical.cpp:618-625 | a document is accepted as v if and only if it is the encoding of v and v fits the limits |
| `Canonical.NoSecondEncoding` | src/canonical.cpp:618-737 | two byte strings that decode to the same value are equal |
| `Canonical.NodesWithinBytes` | src/canonical.cpp:626-737 | the nodes of a value never exceed the bytes of its encoding |
| `Layouts.DocumentBytes` | src/canonical.cpp:426-528 | the bytes of every encodable value: its tag by number, its length or count as a varint, its parts in order |
| `Layouts.NaNExactly` | src/canonical.cpp:436-448 | the bit patterns refused as NaN are exactly those past an infinity of either sign |
| `Layouts.TextOrderExactly` | src/canonical.cpp:39-52 | keys are ordered by the first byte where they differ, and by length when one begins the other |
| `Truncation.TruncatedIsCorrupt` | src/canonical.cpp:546-737 | an accepted document cut anywhere is answered as corrupt, whatever its shape and whatever the limits |
| `Truncation.TrailingIsRefused` | src/canonical.cpp:546-737 | an accepted document with anything behind it is malformed, or over capacity if and only if it no longer fits the document limit |
| `CanonicalCodec.CanonicalWriter.WriteValue` | src/canonical.cpp:489-528 | the writer appends exactly the encoding and reports exactly the values that have none |
| `CanonicalCodec.CanonicalReader.ReadValueAtDepth` | src/canonical.cpp:626-737 | the reader object moves its position and node count exactly as the specification says, errors included |
| `CanonicalCodec.CanonicalReader.ReadWholeDocument` | src/canonical.cpp:618-625 | a fresh reader accepts exactly the documents of the specification |
| `CanonicalCodec.WriteThenRead` | src/canonical.cpp:489-737 | writing a value and reading the bytes returns the value |
| `ObjectValue.MakeObjectCanonical` | src/canonical.cpp:226-238 | an object value has strictly ascending keys, and for each key the first member given for it |
| `ObjectValue.InsertionOrderIrrelevant` | src/canonical.cpp:226-238 | members in any order give the same encoding |
| `ObjectValue.FindExact` | src/canonical.cpp:256-268 | binary search finds a value if and only if the object holds it under that key |
| `Frames.DecodeFrame` | src/wire.cpp:289-313 | the branches return what the specification of a frame says |
| `Frames.HeaderSound` | src/wire.cpp:213-271 | an accepted header is exactly the header the encoder writes for its fields |
| `Frames.AcceptedIffFramed` | src/wire.cpp:213-313 | bytes decode to a frame if and only if they are what the encoder builds for it and it fits the limits |
| `Layouts.HeaderLayout` | src/wire.cpp:273-287 | the sixteen bytes in front of a frame, one by one: magic, version 1, type by number, flags, reserved, body length |
| `Layouts.FrameLayout` | src/wire.cpp:273-287 | header, body and a little-endian checksum of both, in this order and nothing else |
| `Truncation.OtherLengthIsCorrupt` | src/wire.cpp:289-313 | an accepted frame cut short or with bytes behind it is corrupt |
| `Sha256.PadZerosLeast` | src/digest.cpp:144-160 | the padding adds the least number of zeros that leaves 56 bytes in the last block |
| `Sha256.PadInjective` | src/digest.cpp:144-160 | messages shorter than 2^61 bytes have different paddings |
| `Layouts.PadExactly` | src/digest.cpp:144-160 | the padded message byte by byte: the message, 0x80, zeros, the bit length as 64-bit big-endian, a whole number of blocks and no block too many (section 5.1.1 of FIPS 180-4) |
| `Sha256.Hasher.Update` | src/digest.cpp:108-142 | update appends to the message so far, whatever the buffer held |
| `Sha256.Hasher.Finish` | src/digest.cpp:144-168 | finish pads and returns the one-shot hash, and the padding loop ends |
| `Sha256.HashChunks` | src/digest.cpp:108-168 | for every way of cutting a message the result is the one-shot definition of section 6.2 of FIPS 180-4 |
| `Lifecycle.TableShape` | src/lifecycle.cpp:76-109 | every legal move changes the state, none leads to Discovered, exactly Retired is terminal, and attached states can be removed |
| `Lifecycle.TableIsMasks` | src/lifecycle.cpp:76-97 | a move is legal if and only if its bit is set in the nine masks of the code |
| `Latch.ConsecutiveIsTrailingRun` | src/health.cpp:72-127 | the counter is the length of the trailing run of out-of-zone samples since the last transition and stays below the larger count |
| `Latch.BetweenBoundsHolds` | src/health.cpp:72-127 | a value between exit and entry bound keeps the state |
| `Latch.NoHysteresisTracks` | src/health.cpp:52-127 | with exit equal to entry and both counts one the latch is the classification of the latest sample |
| `Latch.Mirror` | src/health.cpp:72-127 | Below is the mirror image of Above under negation |
| `Latch.MirrorClass` | src/health.cpp:52-70 | the same for the plain classification and for threshold validation |
| `Latch.TransitionExactly` | src/health.cpp:106-122 | a sample moves an established latch if and only if it lies outside the state's zone and completes the configured number of out-of-zone samples since the last transition |
| `HealthMeaning.BandsExactly` | src/health.cpp:52-70 | what a value is classified as, by its entry bounds on the side the threshold looks |
| `HealthMeaning.ZoneIsClassification` | src/health.cpp:72-97 | the zone of a state is the classification with that state's own exit bound in place of its entry bound |
| `HealthMeaning.SeverityIsMonotone` | src/health.cpp:72-97 | a value further out is never in a milder zone |
| `HealthMeaning.AcceptedExactly` | src/health.cpp:173-227 | which thresholds are accepted |
| `Health.LastForExact` | src/health.cpp:156-171 | the last live threshold of a metric and lane is found, and none only if there is none |
| `Health.SelectThreshold` | src/health.cpp:156-171 | the lane-specific threshold wins over the module-wide one |
| `Health.NewestExact` | src/health.cpp:229-262 | the map holds, for each source with an eligible sample, a newest one |
| `Health.ClassifySeries` | src/health.cpp:229-389 | the loops compute the classification of the specification |
| `Health.ZoneRestsOnEvidence` | src/health.cpp:229-389 | a zone is only ever assigned on a threshold and a fresh Present sample of the current incarnation and epoch |
| `Health.EvidenceOnlyAges` | src/health.cpp:229-389 | as the clock moves over fixed samples and a fixed threshold, the contributing sources only shrink and Stale stays Stale |
| `Health.StaleExactly` | src/health.cpp:229-389 | a series is Stale if and only if nothing is fresh and something aged out |
| `HealthMeaning.SelectedExactly` | src/health.cpp:156-171 | the selected threshold is a live one of the lane itself, otherwise a module-wide one, and none only where there is neither |
| `HealthMeaning.NewestExactly` | src/health.cpp:235-249 | the samples classified are, for each source with live evidence of the incarnation, its latest by wall clock, of equally late ones the one ingested last |
| `HealthMeaning.JudgedExactly` | src/health.cpp:229-388 | with a threshold: the classification in terms of which sources were heard in time, whether they disagree, and the newest of them |
| `HealthMeaning.UnjudgedExactly` | src/health.cpp:251-286 | without a threshold nothing is classified |
| `HealthReport.BuildHealthReport` | src/registry.cpp:1615-1783 | rows, counters, worst state and outcome of the report loop equal the specification |
| `HealthReport.HealthyIffAllOk` | src/health.cpp:392-397 | a report is healthy if and only if it has a row and every row is Ok |
| `HealthReport.RowsExactly` | src/registry.cpp:1626-1658 | a report has a row for exactly the series with a published threshold, a sample of the current incarnation or declared telemetry |
| `HealthReport.RowsAscend` | src/registry.cpp:1629-1658 | rows are in strictly ascending order of metric and lane |
| `HealthReport.HealthyRestsOnEvidence` | src/registry.cpp:1615-1783 | every row of a healthy report rests on a live threshold of its series or of the whole module and on a fresh measurement of its own series, and the fresh measurements of its sources agree within the tolerance |
| `HealthReport.HealthyMeetsPolicy` | src/registry.cpp:1636-1638 | in a healthy report every published threshold has a fresh measurement of its series to support it |
| `HealthReport.HealthyMeetsTelemetry` | src/registry.cpp:1644-1657 | in a healthy report every declared telemetry metric has one likewise |
| `ReportMeaning.RowExactly` | src/registry.cpp:1676-1715 | the state of a row is what the live samples of its series say, with the latch of the series in place of the band |
| `ReportMeaning.OutcomeExactly` | src/registry.cpp:1764-1783 | the outcome of a report in terms of the states its rows have |
| `ReportMeaning.WorstExactly` | src/registry.cpp:1757-1769 | the worst state of a report is the most severe one a row has |
| `Ordering.SortSorted` | src/identity.cpp:90-95 | the stable sort the source relies on yields a sorted sequence (its contract keeps the elements) |
| `Ordering.SortCanonical` | src/compatibility.cpp:343-364 | without equivalent elements a sort depends only on what is sorted |
| `Ordering.InsertUniqueSorted` | src/compatibility.cpp:299-307 | insertion into an ordered set keeps it strictly sorted |
| `Consensus.NothingLost` | src/identity.cpp:60-137 | over all groups live plus superseded entries are a permutation of the input |
| `Consensus.NewestPerOrigin` | src/identity.cpp:97-113 | the live list holds one entry per source and epoch, and it carries the highest sequence that origin published |
| `Consensus.OutcomeMeaning` | src/identity.cpp:115-131 | Conflicting if and only if two listed values differ, Superseded if and only if nothing is live, a value only without conflict, never Unknown |
| `Consensus.OrderFree` | src/identity.cpp:60-137 | with sequences distinct inside a group the result does not depend on input order |
| `Consensus.GroupByKey` | src/identity.cpp:60-66 | the grouping loop yields the keys in order and each key's entries in order |
| `Consensus.NewestPerSource` | src/identity.cpp:97-113 | the find-and-replace loop computes the newest list and moves what it replaces to the superseded list |
| `Consensus.BuildConsensus` | src/capability.cpp:857-950 | the whole loop equals the specification, for identity and capability claims alike |
| `Answers.AnswerClaims` | src/registry.cpp:466-506 | the live list of an answer holds exactly the entries that stand (current incarnation and epoch, nothing newer from their source), one per source |
| `Answers.AnswerExactly` | src/identity.cpp:60-137 | an answer has one group for exactly the attributes stated; it conflicts if and only if two standing values differ, is superseded if and only if none stands, and gives a value if and only if all standing agree |
| `Answers.SoleStatementAnswers` | src/capability.cpp:857-950 | what one source alone states is the answer |
| `Capability.CanonicalSetShape` | src/capability.cpp:45-62 | a canonical set is strictly ascending and holds exactly the given members |
| `Capability.SetsCompareByMembers` | src/capability.cpp:765-810 | set values compare equal if and only if they were built from the same members |
| `Compatibility.EvaluateRule` | src/compatibility.cpp:368-400 | the requirement loop computes evaluations, both flags and the violated list |
| `Compatibility.CollectReferences` | src/compatibility.cpp:299-307 | the reference set of the digest is collected over all rules passed in |
| `Compatibility.DigestInputs` | src/compatibility.cpp:296-328 | the inputs digest is the hash of the reference document |
| `Compatibility.EvaluateCompatibility` | src/compatibility.cpp:332-490 | the loops equal the decision of the specification, both digests included |
| `CompatibilityTheorems.TallyMeaning` | src/compatibility.cpp:368-420 | each list holds, in evaluation order, exactly the rules of its kind |
| `CompatibilityTheorems.OutcomeExact` | src/compatibility.cpp:424-450 | the outcome is exactly deny over unsupported over (allow with no undecided rule) over unknown among the considered rules |
| `CompatibilityTheorems.CompatibleNeedsKnowledge` | src/compatibility.cpp:368-450 | Compatible implies that no considered rule has an undetermined requirement |
| `CompatibilityTheorems.DecisionOrderFree` | src/compatibility.cpp:343-487 | with unique ids any permutation of the rules gives the identical decision, truncation and digests included |
| `CompatibilityTheorems.AnswersAreStable` | src/compatibility.cpp:104-180 | Compatible and Incompatible survive any resolver that agrees on what was established |
| `CompatibilityTheorems.UnsupportedStaysExactly` | src/compatibility.cpp:424-450 | Unsupported stays if and only if no considered deny rule becomes satisfied, and otherwise becomes Incompatible |
| `CompatibilityTheorems.UnsupportedStaysForGood` | src/compatibility.cpp:368-450 | with a violated requirement in every considered deny rule, Unsupported stays under whatever is learned later |
| `CompatibilityTheorems.UnsupportedCanFall` | src/compatibility.cpp:183-240 | two rules and a query the code accepts, and two resolvers, under which Unsupported turns into Incompatible |
| `CompatibilityTheorems.RefutedRulesBlockApproval` | src/compatibility.cpp:368-450 | when an allow rule hits, no other verdict does and every undecided rule is refuted, any extension answers Compatible if and only if it decides every considered rule, and Unknown otherwise |
| `CompatibilityTheorems.RefutedRuleBlocks` | src/compatibility.cpp:400-414 | two rules, one refuted and undetermined: Unknown now, Compatible once the port is declared |
| `CompatibilityTheorems.DecisionFollowsInputs` | src/compatibility.cpp:272-328 | resolvers that feed the inputs digest the same document lead to the same decision |
| `Operators.BoundsDecide` | src/compatibility.cpp:161-175 | an established number meets AtMost if and only if it is at most the bound, AtLeast if and only if at least |
| `Operators.ValuesDecide` | src/compatibility.cpp:107-114 | Equals and NotEquals decide on the two values |
| `Operators.EnumSetsDecide` | src/compatibility.cpp:115-160 | the six set operators over enumerators, stated on the members the sets were made from |
| `Operators.TextSetsDecide` | src/compatibility.cpp:115-160 | the same over texts |
| `Operators.UndeterminedExactly` | src/compatibility.cpp:104-180 | an established attribute leaves a requirement undetermined if and only if the operator cannot compare the two shapes |
| `Operators.UnsettledIsUndetermined` | src/compatibility.cpp:244-270 | an attribute that is missing, disputed or superseded leaves every requirement on it undetermined |
| `Operators.ScalarsAreNeverIn` | src/compatibility.cpp:115-127 | In and NotIn never decide on a single enumerator |
| `Operators.BoundsAreMonotone` | src/compatibility.cpp:161-175 | observing less never loses AtMost, observing more never loses AtLeast |
| `Operators.CeilingHolds` | src/compatibility.cpp:161-175 | under a ceiling of fifteen, fifteen is approved and twenty-five is not; a floor decides the other way |
| `Operators.DecisionFromRequirements` | src/compatibility.cpp:368-450 | the outcome over any rules, in terms of the decision on each requirement alone |
| `Operators.AnswerIsShown` | src/compatibility.cpp:244-270 | a decision shows the value it saw and how well it is agreed on |
| `Decisions.ConsideredExactly` | src/compatibility.cpp:345-361 | the rules considered are the highest-ranking rules in force, as many as the query asks for, in rank order |
| `Decisions.MatchedExactly` | src/compatibility.cpp:418-450 | a decision names exactly the considered rules that brought its outcome about, or, undecided, the satisfied allow rules and the open ones |
| `Decisions.ReportedExactly` | src/compatibility.cpp:378-420 | a decision reports exactly the violated and the undetermined requirements of the rules it considered |
| `Decisions.DecisionTokensTell` | src/compatibility.cpp:456-487 | the document behind a decision digest tells outcome, closure, counts, generation, inputs digest, rules named and module incarnation |
| `Queries.QueryCompatibility` | src/registry.cpp:1891-1947 | the query with its refusals and loops equals its specification on one published state |
| `Queries.RulesExactly` | src/registry.cpp:1936-1943 | a query is decided on exactly the live rules of the table |
| `Queries.ResolvedExactly` | src/registry.cpp:1917-1934 | a query takes an attribute as settled on a value if and only if some live declaration of its subject states it and all that do give this value |
| `Queries.BoundIsEnforced` | src/registry.cpp:1891-1947 | from the tables to the answer: a bound gives its verdict if and only if the number live sources agree on is within it |
| `Queries.NoFactNoDecision` | src/registry.cpp:1916-1934 | what no live source states, or live sources dispute, leaves the rule open |
| `Queries.PublicationIsFact` | src/registry.cpp:995-1043 | a committed publication is a fact for every query unless another live source states the attribute |
| `Queries.ReconnectSilences` | src/registry.cpp:656-676 | a source that registers as another instance takes back everything it alone had stated |
| `Queries.DecisionStays` | src/registry.cpp:1891-1947 | over any run without a source registration, a rule change, a replacement of the module, or a publication for this module or port, the decision stays the same |
| `Trim.FailsExactly` | src/registry.cpp:221-239 | the total budget fails if and only if the entries nobody superseded exceed it |
| `Trim.EraseKeepsStatus` | src/registry.cpp:205-219 | erasing a superseded entry changes nobody else's status |
| `Trim.ShrinkFaithful` | src/registry.cpp:347-376 | the first phase keeps order, every shadow, and every unrevised entry |
| `Trim.KeepRecentFaithful` | src/registry.cpp:241-274 | the history phase keeps order, every shadow, and every unrevised entry of the newest incarnation |
| `Trim.TrimFaithful` | src/registry.cpp:221-274 | the same for both phases together |
| `TrimLoops.FitTotal` | src/registry.cpp:221-239 | the erasing loop equals the specification and its guard never runs out early |
| `TrimLoops.NewerRank` | src/registry.cpp:250-263 | an entry's place in its sorted group is the number of entries newer than it |
| `TrimLoops.KeepHistory` | src/registry.cpp:241-274 | grouping, sorting, dropping and rebuilding keep exactly the recent entries |
| `TrimLoops.TrimRecordList` | src/registry.cpp:292-345 | trim_claims and trim_declarations equal the specification, error included |
| `HistoryBounds.HistoryExactly` | src/registry.cpp:240-273 | of each attribute one source epoch states, the history phase keeps exactly the newest entries up to the bound, in stored order |
| `HistoryBounds.TrimExactly` | src/registry.cpp:221-273 | a trim keeps, of what the total budget left, exactly the newest of each series; no series exceeds its bound and a list within both bounds is unchanged |
| `HistoryBounds.ShrinkExactly` | src/registry.cpp:221-239 | the total budget erases exactly the first superseded entries, as many as are too many |
| `ListRuns.ListsStayBounded` | src/registry.cpp:221-345 | over any run from empty every claim and declaration list keeps its total bound and its bound per attribute and source epoch, and every port list its total bound |
| `TrimAnswers.MarkLive` | src/registry.cpp:466-506 | live_claims, live_declarations and live_port_declarations select and mark as specified |
| `TrimAnswers.TrimKeepsAnswers` | src/registry.cpp:221-274 | a successful trim leaves groups, outcomes, values and live entries identical and only shrinks superseded lists |
| `TrimAnswers.ShrinkKeepsAnswers` | src/registry.cpp:347-376 | the same for port lists |
| `Samples.TrimSamples` | src/registry.cpp:378-406 | the eviction loops equal the specification |
| `Samples.TrimRingExact` | src/registry.cpp:378-406 | nothing vanishes uncounted, every series keeps a suffix within its limit, the module cap holds, counters still cover what is stored |
| `Samples.FreshSampleKeptExactly` | src/registry.cpp:378-406 | the sample just pushed survives if and only if the surplus of its counter over what is stored is below the series limit (and the module cap is positive) |
| `Samples.FreshSampleCanBeLost` | src/registry.cpp:378-406 | from the empty ring with both caps one: of three samples of two series the third is evicted on arrival |
| `Samples.SurplusNeverFalls` | src/registry.cpp:378-406 | no arrival lowers the surplus of any series, and every arrival leaves each series empty or its counter within the limit |
| `Starvation.RingsOverRuns` | src/registry.cpp:1419-1456 | over every run the caps hold, rings stay balanced and no surplus falls |
| `Starvation.StarvedForGood` | src/registry.cpp:378-406 | once the surplus of a series has reached the series limit, the series is empty in every later state of every run |
| `Starvation.ReachedRings` | src/registry.cpp:378-406 | every reachable state meets what those statements start from |
| `Validation.RepeatsField` | src/registry.cpp:730-739 | the search over seen fields finds a repetition if and only if there is one |
| `Registry.RegistryImpl.Mutate` | src/registry_internal.hpp:198-222 | fence, copy, body, publish; a refusal counts and changes nothing else |
| `Registry.RegistryImpl.Submit` | src/registry.cpp:638-2080 | a call with its argument checks: new state, status and refusal count |
| `Registry.RegistryImpl.SubmitAll` | src/registry_internal.hpp:198-222 | the object walks exactly the run of the calls and stays good |
| `Registry.UnliveAll` | src/registry.cpp:807-812 | the loop detaches exactly the live slots of the module |
| `Registry.CountLiveSlots` | src/registry.cpp:1218-1225 | the loop counts the live slots |
| `Registry.RegisterModuleOn` | src/registry.cpp:741-886 | the registration body, its two loops included |
| `Registry.UpdateIdentityOn` | src/registry.cpp:892-926 | the identity update body |
| `Registry.PublishCapabilityOn` | src/registry.cpp:995-1043 | the capability publication body |
| `Registry.PublishPortCapabilityOn` | src/registry.cpp:1045-1101 | the port publication body with its two trims |
| `Registry.AttachOn` | src/registry.cpp:1184-1266 | the attach body: idempotence, legality, takeover, cap, event |
| `Registry.IngestOn` | src/registry.cpp:1385-1456 | the ingest body: replay test, push, latch, eviction |
| `Registry.PublishThresholdOn` | src/registry.cpp:1476-1527 | the threshold body: retire, cap, push, at most one eviction |
| `Registry.ReconcileOn` | src/registry.cpp:2008-2080 | the reconcile body over the report it builds |
| `RegistryInvariant.TrimListOk` | src/registry.cpp:221-345 | trimming keeps the order and stamps of a list |
| `InvariantSteps.RegisterSourceKeeps` | src/registry.cpp:650-698 | both source indexes stay inverse, ids stay below the counter, epochs never go back |
| `InvariantSteps.PublishThresholdKeeps` | src/registry.cpp:1481-1526 | at most one threshold stays live per metric and lane |
| `InvariantSteps.IngestKeeps` | src/registry.cpp:1385-1456 | samples keep subject, incarnation, known epoch and ascending sequence |
| `InvariantSteps.AttachKeeps` | src/registry.cpp:1184-1266 | every attachment names an existing module and an incarnation it has had |
| `InvariantRegistration.RegisterModuleKeeps` | src/registry.cpp:741-886 | both module indexes stay inverse and every list stays well stamped through a registration |
| `InvariantRegistration.BodyKeeps` | src/registry.cpp:638-2080 | every mutation body keeps the whole invariant |
| `Runs.RunKeepsInvariant` | src/registry_internal.hpp:105-125 | every state of every run from a good state is good |
| `Runs.CommitAdvances` | src/registry_internal.hpp:206-219 | a commit advances generation, mutation count and sequence by exactly one |
| `Runs.GenerationCountsCommits` | src/registry_internal.hpp:198-222 | over a run the generation counts the commits and nothing else |
| `Runs.OneWinner` | src/registry_internal.hpp:198-205 | of all calls fenced on one valid generation at most one commits, in any interleaving |
| `Runs.HandleIsCurrent` | src/registry.cpp:880-883 | a call fenced with a handle commits only if nothing committed since the handle was minted |
| `Runs.RefusalChangesNothing` | src/registry_internal.hpp:208-215 | a refused call leaves the state as it was |
| `Resurrection.BodyStep` | src/registry.cpp:638-2080 | a body adds only entries of its own sequence and keeps every stored shadow, incarnation and epoch order |
| `Resurrection.NoResurrection` | src/registry.cpp:454-520 | a claim, declaration, port declaration or sample that is not live is never live in any later state |
| `Resurrection.RetiredTokenNeverCommits` | src/registry.cpp:165-178 | a token whose epoch was retired never commits again |
| `LifecyclePath.HistoryIsAPath` | src/registry.cpp:761-855 | along every run from any state whose histories are paths, the empty one included: the retained events chain end to start in time order, each is a table edge, a birth or a forced replacement, the last ends in the stored state, and no module is left Discovered |
| `LifecyclePath.RetiredIsFinal` | src/lifecycle.cpp:76-97 | inside one incarnation nothing follows retirement |
| `LifecyclePath.NeverInternal` | src/registry.cpp:1293-1296 | no body ever reports an internal error: index targets exist and attached modules are removable |
| `LifecyclePath.ReconcileNeverIllegal` | src/registry.cpp:2025-2055 | the illegal-transition branch of reconcile is unreachable |
| `SampleRuns.SamplesConserved` | src/registry.cpp:1419-1456 | from an empty registry stored plus dropped samples equal the committed ingests, and all caps hold |
| `SampleRuns.SeriesIsSuffix` | src/registry.cpp:378-406 | every stored series is a suffix of what was ingested into it, in order |
| `SampleRuns.StoredAt` | src/registry.cpp:593-625 | the total of stored samples splits off any one module |
| `SampleOrder.ReadingsAscend` | src/registry.cpp:1404-1417 | over any run stored samples are in commit order, and the readings of one source, series and clock domain strictly ascend |
| `LatchRuns.IngestLatches` | src/registry.cpp:1438-1453 | a committed measurement with a threshold advances the stored latch of its series and no other; any other ingest changes no latch |
| `LatchRuns.LatchFollowsMeasurements` | src/registry.cpp:1438-1453 | over any run within an incarnation the stored latch is the latch automaton fed with the committed measurements, each judged by the threshold then in force |
| `LatchRuns.StoredLatchExactly` | src/health.cpp:98-127 | under one threshold the stored latch is the run of the automaton over the committed measurements of its series |
| `LatchRuns.ThirdTimeEscalates` | src/registry.cpp:1438-1453 | with escalation after three the first two hot samples leave the stored latch Ok and the third makes it Degraded |
| `Reachable.UpdateAnswersExact` | src/registry.cpp:892-926 | what an identity update stores answers every question as the untrimmed list would |
| `Reachable.PublishAnswersExact` | src/registry.cpp:995-1043 | the same for a capability declaration |
| `Reachable.ConsensusOrderFree` | src/identity.cpp:60-137 | in every good state, reached or loaded, the consensus of a module is independent of the order of its claims |
| `Reachable.RuleIdsAreUnique` | src/registry.cpp:1825-1855 | any listing of the rule table of a good state has unique ids |
| `Reachable.StampsBounded` | src/registry.cpp:1379-1382 | with a clock that does not go back no stored sample is stamped beyond now plus the tolerance |
| `Reachable.ReachableEvidenceOnlyAges` | src/registry.cpp:1615-1783 | the same for the series of any reachable state at two clock readings: no call happens in between, and the stamp bound holds by ingestion |
| `Admission.AcceptedExactly` | src/registry.cpp:140-203 | which arguments of each call pass the checks made before the registry is looked at |
| `Admission.SampleExactly` | src/registry.cpp:1356-1382 | the answer to a sample, error by error: metric, lane, plausible range, provenance, clock skew |
| `Admission.OnlyAdmittedIsStored` | src/registry.cpp:638-1530 | after any run every stored source, claim, declaration, sample, threshold, rule and slot is one the checks admit |
| `Refusals.TurnedAway` | src/registry.cpp:165-178 | stale generation, no source, stale authority, unknown module and fenced incarnation are answered in this order and before anything else |
| `Refusals.StaleExactly` | src/registry_internal.hpp:198-222 | a call is stale if and only if it asks to be fenced and names a valid generation other than the current one |
| `Refusals.OldHandleNeverCommits` | src/registry.cpp:462-464 | a handle on a replaced incarnation commits in no later state |
| `Refusals.MovesRefused` | src/registry.cpp:1965-1980 | a transition is refused if and only if the table has no such edge, a retirement if and only if there is no live rule, a detach if and only if the slot is free |
| `Refusals.AttachRefused` | src/registry.cpp:1184-1232 | an attach to the slot held is always answered; any other is refused if and only if the state forbids it or a new slot finds no room |
| `Refusals.SourcesRefused` | src/registry.cpp:653-684 | a source registration is refused if and only if the table, the ids or the epochs of this source are exhausted |
| `Refusals.TablesRefused` | src/registry.cpp:1483-1496 | a threshold or a rule is refused if and only if its table is full, thresholds of the same series not counted |
| `Refusals.GoneIsRefused` | src/registry.cpp:750-816 | a registration of the current incarnation is refused as stale if and only if that incarnation is gone |
| `Refusals.UpdateBudget` | src/registry.cpp:221-239 | an identity update is refused if and only if more unsuperseded entries would remain than the module may hold |
| `Refusals.PublishBudget` | src/registry.cpp:292-309 | a capability publication likewise |
| `Refusals.PortRefused` | src/registry.cpp:1064-1101 | a port publication is refused if and only if the port table is full, or a full list cannot free a place, or too many unsuperseded entries would remain |
| `Refusals.FullPortRefusesRevision` | src/registry.cpp:1079-1082 | a full port list with nothing superseded refuses even a revision of its own entries, although the list would fit with it |
| `EvidenceRuns.SamplesStay` | src/registry.cpp:638-2080 | over any run without a sample for a module its samples stay, its incarnation and all epochs only grow |
| `EvidenceRuns.FadingEvidence` | src/health.cpp:229-389 | under later epochs and a later incarnation the newest samples are those of sources still current; contributing sources shrink, and Stale stays Stale if and only if some aged-out source is still current |
| `EvidenceRuns.EvidenceOverRuns` | src/registry.cpp:1615-1783 | between two clock readings, over any run of calls that brings the module no sample: the same two statements for a fixed threshold |
| `EvidenceRuns.ReachableStamps` | src/registry.cpp:1379-1382 | every reachable state meets the stamp bound those statements ask for |
| `EvidenceRuns.StaleNeedNotStay` | src/registry.cpp:638-698 | four calls on an empty registry after which a Stale series is Fenced: its source reconnected |
| `Effects.UpdateIsLive` | src/registry.cpp:892-926 | a committed identity update leaves a live entry with the field, value, authority, incarnation, provenance and stamps of the call, whatever trimming removed; of the entries live before exactly those it restates no longer are, and nothing else changes |
| `Effects.DeclarationIsLive` | src/registry.cpp:995-1043 | a committed capability declaration likewise |
| `Effects.PortDeclarationIsLive` | src/registry.cpp:1045-1101 | a committed port declaration likewise, through both trims, opening the port if there was none |
| `CallEffects.UpdateIsAnswered` | src/registry.cpp:892-973 | the field and value of a committed update are what the module's identity answers, as the value when no other live source speaks |
| `CallEffects.PublicationIsAnswered` | src/registry.cpp:995-1131 | the key and value of a committed declaration likewise |
| `CallEffects.PortPublicationIsAnswered` | src/registry.cpp:1045-1155 | and those of a committed port declaration |
| `CallEffects.RegistrationEffect` | src/registry.cpp:855-878 | a registration states every element of its identity with the authority, provenance and stamps of the call, and of the entries of the incarnation it registers exactly those it restates stop being live |
| `CallEffects.RegistrationIsAnswered` | src/registry.cpp:855-878 | every element of a committed registration's identity is what the module answers |
| `CallEffects.FirstRegistration` | src/registry.cpp:745-855 | a key seen for the first time gets the next uid and incarnation one, with both lifecycle entries; the whole state left is given |
| `CallEffects.RepeatedRegistration` | src/registry.cpp:783-855 | a known module still there is registered if it was only discovered, and nothing else of it or of others changes |
| `CallEffects.NewIncarnationRegistration` | src/registry.cpp:789-855 | a new incarnation replaces the one there and frees its slots unless it had gone, and starts registered without latches; the whole state left is given |
| `CallEffects.TransitionEffect` | src/registry.cpp:1963-2000 | a committed transition moves the module along a legal edge with one entry giving the reason of the call, and changes nothing else |
| `CallEffects.ReconcileEffect` | src/registry.cpp:2045-2074 | a committed reconcile leaves the module or moves it with one entry saying which way the evidence pointed |
| `CallEffects.AttachFills` | src/registry.cpp:1184-1265 | a committed attach fills the slot with the module incarnation, the authority and the stamps of the call and moves the module, or changes nothing |
| `CallEffects.DetachFrees` | src/registry.cpp:1273-1316 | a committed detach frees its slot and moves a module attached through it, with one entry naming the slot |
| `CallEffects.IngestEffect` | src/registry.cpp:1385-1456 | a committed ingest stores the sample with missing times filled in and the stamps of the call, bounded as the ring is; only latches and the loss counter move beside it |
| `CallEffects.ReplayExactly` | src/registry.cpp:1398-1417 | an ingest past the door is refused if and only if its source has reported something as new, by the same clock, in the same series |
| `CallEffects.NewSourceEffect` | src/registry.cpp:676-697 | a new source gets the next id and epoch one; the whole state left is given |
| `CallEffects.KnownSourceEffect` | src/registry.cpp:653-676 | a known source keeps its id, with the epoch its instance id calls for; the whole state left is given |
| `CallEffects.ThresholdEffect` | src/registry.cpp:1483-1525 | a published threshold is live and selected; older ones of its series are retired and every other threshold stays |
| `CallEffects.OldestIsForgotten` | src/registry.cpp:1506-1524 | if a publication evicts a threshold it is the oldest of the series published |
| `CallEffects.RuleEffect` | src/registry.cpp:1830-1850 | a published rule is stored with the authority and stamps of the call under the next id cut to 32 bits |
| `CallEffects.RetirementEffect` | src/registry.cpp:1857-1873 | a retired rule was live, keeps its content and takes the stamps of the call |
| `Effects.ReconcileFollowsEvidence` | src/registry.cpp:2023-2045 | reconcile moves to Active if and only if the evidence is healthy, to Degraded if and only if it is bad, from the states it may, and otherwise changes nothing |
| `Reconciliation.ReconcileExactly` | src/registry.cpp:2023-2045 | reconcile degrades if and only if a row is degraded or critical, activates if and only if there are rows and all are Ok, from the states it may, and otherwise changes nothing |
| `Reconciliation.EvidenceExactly` | src/registry.cpp:1626-1674 | what the report is built from: live thresholds, stored samples and latches, declared telemetry, current epochs |
| `Reconciliation.TelemetryExactly` | src/health.cpp:131-154 | which declared capability calls for which metric |
| `Reconciliation.ActivationNeedsEvidence` | src/registry.cpp:2008-2076 | a module becomes Active only with a fresh supporting measurement for every published threshold and every declared telemetry metric |
| `Effects.EpochStaysExactly` | src/registry.cpp:656-676 | the epoch stays if and only if the same non-empty instance id registers again; otherwise every older token is retired |
| `Effects.AttachEffect` | src/registry.cpp:1184-1266 | the slot holds the module incarnation, nothing else changed, and nothing at all exactly when it already held it |
| `Effects.DetachEffect` | src/registry.cpp:1273-1318 | exactly this slot is freed, and an attached module of that incarnation is removed |
| `Effects.DetachUndoesAttach` | src/registry.cpp:1174-1318 | detaching right after attaching frees the slot and leaves the module removed |
| `Effects.NewIncarnationEffect` | src/registry.cpp:789-842 | a new incarnation is registered, latches are cleared, older handles are fenced, and no slot stays attached unless the module was already replaced or retired |
| `Effects.PublishedIsSelected` | src/registry.cpp:1476-1527 | the threshold just published is the one later classifications of its series select |
| `TableRuns.RulesAreCounted` | src/registry.cpp:1832-1849 | from an empty registry on, rule ids are exactly 1 to the counter, so there are as many rules as the counter says and no more than allowed |
| `TableRuns.PublishedRuleIsStored` | src/registry.cpp:1825-1849 | a published rule is stored live under an id nothing used before, and every older rule is untouched |
| `TableRuns.RulesOnlyRetire` | src/registry.cpp:1825-1880 | over every run rules keep id and content, never disappear, and never turn live again |
| `TableRuns.RetiredRuleStaysRetired` | src/registry.cpp:1857-1880 | a committed retirement is final in every later state, content unchanged |
| `TableRuns.PublicationHistory` | src/registry.cpp:1505-1525 | one publication keeps a history at or over the limit at its length, grows a shorter one by one, and leaves every other history alone |
| `TableRuns.HistoryBoundExactly` | src/registry.cpp:1513-1525 | for a positive limit a publication leaves its history within the limit if and only if it was within before |
| `TableRuns.HistoryOverRuns` | src/registry.cpp:1476-1527 | over every run a history never shrinks, and is within the limit at the end if and only if it was at the start |
| `RecordStream.FrameRoundTrip` | src/snapshot.cpp:718-770 | a frame is read back where it was written, whatever follows |
| `RecordStream.GoodFramesExact` | src/snapshot.cpp:718-820 | the frames before the first bad one are exactly the accepted bytes, with no gap, and the next fails a test |
| `RecordStream.StreamRoundTrip` | src/snapshot.cpp:137-146 | a stream of frames is read back frame for frame |
| `RecordStream.OversizedFrameEndsStream` | src/snapshot.cpp:733-743 | a record longer than the reader's bound is written but ends the recovered stream |
| `Layouts.RecordLayout` | src/snapshot.cpp:137-146 | a record in the file: length, kind by number, payload, checksum of kind and payload |
| `Layouts.FileHeaderLayout` | src/snapshot.cpp:643-656 | the 32 bytes in front of a snapshot, field by field |
| `Layouts.FileTrailerLayout` | src/snapshot.cpp:656-660 | the 20 bytes behind it |
| `SnapshotRecovery.PrefixFold` | src/snapshot.cpp:770-817 | folding the header and k more records gives exactly the tables those records name, indexes included |
| `SnapshotRecovery.PartialKeepsInvariant` | src/snapshot.cpp:482-549 | any prefix of a good state's records rebuilds a state that satisfies the registry invariant |
| `Snapshot.WriteSnapshot` | src/snapshot.cpp:643-664 | the file is header, record stream and trailer |
| `Snapshot.ParseRecords` | src/snapshot.cpp:718-820 | the record loop equals the specification |
| `Snapshot.ReadSnapshot` | src/snapshot.cpp:683-851 | the header, region and trailer tests in the code's order |
| `Snapshot.RevalidateLatches` | src/snapshot.cpp:857-893 | the latch loop keeps or resets as specified |
| `SnapshotTheorems.ParseIsFold` | src/snapshot.cpp:718-820 | the parse is the fold of the surviving frames, with every dropped byte counted |
| `SnapshotTheorems.CrashRecovery` | src/snapshot.cpp:683-851 | a file torn inside its region yields exactly the records before the first bad frame, accepted plus dropped bytes cover the region, and the result is a good state with no dangling attachment |
| `SnapshotTheorems.SaveParseRoundTrip` | src/snapshot.cpp:643-851 | an intact file gives back the very state that was written |
| `SnapshotCuts.CutSurvivors` | src/snapshot.cpp:718-820 | the frames that survive a cut of the stream are exactly those left whole |
| `SnapshotCuts.WholeFramesLost` | src/snapshot.cpp:706-714 | a file cut inside its region with whole frames left parses to an empty registry and every byte dropped |
| `SnapshotCuts.CutRecoversExactly` | src/snapshot.cpp:683-851 | for every cut of a written file, tail recovery on: the parse hands over exactly the whole frames still present if and only if header and trailer length are reached and the region is whole or no frame is |
| `Documents.DocumentReadsBack` | src/snapshot.cpp:78-96 | a document of small members reads back as the object that was written |
| `Documents.DocumentReadsExactly` | src/snapshot.cpp:78-96 | a written document reads back if and only if it has an encoding and fits the reader's limits; otherwise nothing is read at all |
| `Documents.MadeShape` | src/value_fields.hpp:18-46 | an object of distinctly named members has an encoding if and only if each of its members has |
| `EvidenceDocuments.ValueRead` | src/capability.cpp:678-753 | a capability value of any of the nine shapes reads back as it was if its numbers are in range, and is refused if not |
| `EvidenceDocuments.ValueShape` | src/codec.cpp:545-633 | a capability value has an encoding if and only if its texts are UTF-8 |
| `EvidenceDocuments.SampleRead` | src/codec.cpp:809-862 | a sample reads back if and only if its monotonic reading fits a signed integer |
| `EvidenceDocuments.DeclarationShape` | src/codec.cpp:641-659 | a declaration has an encoding if and only if subkey, value texts and provenance texts are UTF-8 |
| `TableDocuments.RuleRead` | src/codec.cpp:1345-1375 | a rule entry, requirements and operands included, reads back if every operand is in range, and is refused if not |
| `Documents.FieldMade` | src/value_fields.hpp:37-46 | every member of an object built from distinct keys is found again |
| `RecordDocuments.HeaderRoundTrip` | src/snapshot.cpp:446-475 | the header record comes back if and only if every counter fits signed storage and the incarnation its range |
| `RecordDocuments.SourceRoundTrip` | src/snapshot.cpp:177-210 | a registered source comes back if and only if its description is UTF-8 and its stamps fit signed storage; otherwise its payload does not even decode |
| `RecordDocuments.ModuleRead` | src/snapshot.cpp:212-399 | a module record with its five lists reads back if all its numbers are in range, and is refused if not |
| `RecordDocuments.RecordRead` | src/snapshot.cpp:770-817 | the same for all seven kinds of record |
| `RecordDocuments.RecordShape` | src/snapshot.cpp:482-549 | a record of any kind has an encoding if and only if every text it stores is UTF-8 |
| `LostSnapshots.SourcesAreRegistered` | src/registry.cpp:638-698 | every source of a run has the form those statements ask for, whatever its description |
| `SnapshotDocuments.RecordReadsExactly` | src/snapshot.cpp:770-817 | the payload of one record is read back as that record if and only if its texts are UTF-8, its numbers in range and its document within the limits; otherwise it is refused |
| `SnapshotDocuments.DocumentsReadable` | src/snapshot.cpp:482-549 | a record stream meets the condition of the recovery theorems if and only if every record reads back and fits a frame |
| `SnapshotDocuments.FileReadsBackExactly` | src/snapshot.cpp:643-851 | an intact saved file gives back the written state if and only if every record reads back and fits; if all fit and one does not read back, the parse fails, tail recovery or not |
| `TypedRuns.RunHeld` | src/registry.cpp:638-2080 | every state of a run holds in each field what the field's type holds: key texts, enumerations, canonical sets, 32-bit counters, 64-bit clocks |
| `TypedRuns.SavesReadBackExactly` | src/snapshot.cpp:482-549 | for every run from an empty registry with counters below 2^63 and every save of it, the intact file gives back the saved state if and only if its texts are UTF-8, its numbers in range and its records within the limits |
| `LostSnapshots.IllFormedIsStored` | src/registry.cpp:1957-1963 | a committed registration, transition or capability publication with an ill-formed unchecked text leaves that text in the tables |
| `LostSnapshots.IllFormedNeverLoads` | src/registry.cpp:1957-1963 | after one such call no save of the state, however ties are ordered, gives the state back; with all records within the bound it is refused outright |
| `LostSnapshots.ReasonNeverLoaded` | src/registry.cpp:1957-1963 | three accepted calls on an empty registry, the last a transition with the reason 0xFF, and a save that never loads |
| `LostSnapshots.AcceptedButNeverLoaded` | src/registry.cpp:638-647 | a registration on an empty registry that is accepted and saved but never loaded: its description is the byte 0xFF |
| `LostSnapshots.OneByteShortLosesAll` | src/snapshot.cpp:706-714 | a one-source registry whose saved file reads back whole, and one byte short in its region gives back nothing although the header record is whole |
| `SnapshotTheorems.LoadedIsGood` | src/snapshot.cpp:896-943 | a load publishes a good state one generation on, in a new registry incarnation, with every attachment kept |
| `Runs.FencedExactly` | src/registry_internal.hpp:198-222 | the mutation path answers with a stale generation if and only if the fence is valid and not current |
| `SnapshotTheorems.LoadFencesOldHandles` | src/snapshot.cpp:934-940 | after a load a fenced call is refused as stale if and only if its fence is valid and differs from the saved generation plus one |
| `Restarts.LostProcessFences` | src/snapshot.cpp:934-940 | a call fenced on the generation the previous process had reached is refused after the load if and only if not exactly one call had committed since the save |
| `Restarts.DeadAcrossRestart` | src/snapshot.cpp:683-943 | a claim, declaration or sample dead before the save is dead in every state after a load that brought the header record back |
| `Restarts.RetiredTokenAcrossRestart` | src/snapshot.cpp:446-475 | a retired token is refused in every state after the load if and only if the header record came back, whatever became of the source records |
| `SnapshotTheorems.KeptLatchHasEvidence` | src/snapshot.cpp:857-893 | a latch the load keeps rests on a published threshold and a live measurement within its age bound |
| `LoadedEvidence.LoadedExactly` | src/snapshot.cpp:857-893 | after a load a latch is as it was if and only if a threshold governs its series and the newest live observation of it is a measurement within its age bound, and empty otherwise; its module is unchanged besides |
| `LoadedEvidence.LoadedElsewhere` | src/snapshot.cpp:915-951 | nothing else of a saved state is changed by loading it, but the generation and the registry incarnation |
| `LoadedEvidence.HeaderDecides` | src/snapshot.cpp:683-716 | the answers the header alone decides, in order |
| `LoadedEvidence.TrailerDecides` | src/snapshot.cpp:822-851 | once all records are read: a trailer cut or with another magic is a lost tail, a wrong checksum is corrupt even where tails may be lost |
| `LoadedEvidence.OnlyIntoEmpty` | src/snapshot.cpp:896-910 | a registry that holds anything refuses every file |
| `SnapshotSaved.SaveModule` | src/snapshot.cpp:211-308 | a module is written with every list sorted by sequence and its counters recounted |
| `SnapshotSaved.CollectRecords` | src/snapshot.cpp:482-549 | header first, then every table in key order |
| `SnapshotSaved.SavedIsGood` | src/snapshot.cpp:482-549 | the saved form satisfies the invariant, however ties were ordered |
| `SnapshotSaved.SavedAnswersAlike` | src/snapshot.cpp:233-270 | saving changes no consensus answer, however ties were ordered |
| `SnapshotSaved.RecountHeals` | src/snapshot.cpp:355-363 | the recount of a load leaves no surplus in any series |
| `SnapshotSaved.LifeAfterCrash` | src/snapshot.cpp:683-943 | run, save, tear the file after any record or leave it whole, load it, run on: the load succeeds with the records before the tear and every later state keeps the invariant |
| `SavedPaths.SortedPathExactly` | src/snapshot.cpp:290-305 | a lifecycle history sorted for saving is still a path if and only if the sort kept the order of equal stamps, and then nothing moved |
| `SavedPaths.AlwaysPathExactly` | src/snapshot.cpp:290-305 | every order the sort may leave a history in is a path if and only if no call left two events in it |
| `SavedPaths.EverySavePaths` | src/snapshot.cpp:290-305 | every save of a state keeps the histories of the given modules paths if and only if none of them retains two events of one call |
| `SavedPaths.RegistrationCanBeReversed` | src/snapshot.cpp:290-305 | the two events of a registration carry one stamp; reversed, which the sort allows, they are no path |
| `SavedPaths.PathsAfterCrash` | src/snapshot.cpp:683-943 | after run, save, tear (if any) and load the histories are paths if and only if the ties of every recovered module were kept, as they are when none retained two events of one call, and then they stay paths over every further run |

## Left out
- LifecyclePath.HistoryIsAPath: a load meets its starting condition only if the sort kept ties (SavedPaths.PathsAfterCrash), because saving orders the events of one call by nothing they differ in.
- Effects.NewIncarnationEffect: live attachments of a module already Replaced or Retired stay, because the code leaves them (src/registry.cpp:793-812).
- Reachable.StampsBounded: assumes the wall clock does not go back during the run, as the freshness rules do.
- SnapshotTheorems.CrashRecovery: assumes the file header intact and the record region at its declared length; SnapshotCuts says what shorter files give.
- RecordDocuments.RecordRead: fields the model does not keep are written as fixed values: the declared kind of a source, the unused conflict counter of the header and the clock domain of claims and declarations as 0, the content digest of a provenance as the zero digest, the note of an attachment (one of three sentences of the code) as the empty text.
- SnapshotDocuments.FileReadsBackExactly: asks that every module keeps some lifecycle history, as runs with max_lifecycle_history of at least one do (TypedRuns.SavesReadBackExactly); for a module without any the reader makes up an event.
- TableDocuments.PublishedRead: bounds a threshold does not use may be NaN or infinite in the code, which stores them and refuses them on load; here every bound is a number.
- Restarts.DeadAcrossRestart: says nothing when the header record is lost, because sequence numbers then start over.
- Wrap-around of the 64-bit generation, sequence, mutation and uid counters.
- Rounding: doubles are reals, and NaN, infinities and signed zero occur only as bit patterns in the codec; counts compared with reals are exact.
- The inside of SHA-256 compression, the CRC-32C table and JSON rendering.
- The name tables of src/taxonomy.cpp, and with them per-key capability shapes and rule validation (arguments of the model).
- Identity and capability views beyond their groups: digests, counts of conflicts, and the history queries.
- Issue lists, rationales of evaluations and report digests: text that no decision reads and no snapshot stores.
- Clock domains of claims and reports; samples keep theirs because the replay test reads it.
- The values calls return (handles, records): each is a field of the state the call publishes.
- conflicts_observed, the query counter and the statistics calls.
- Saving without history; the flag drops retired thresholds and keeps every claim, since stored claims are never marked dead.
- Loading while mutations run: the code tests emptiness and installs the state in separate critical sections.
- Autosave, file writing, sockets, the server, the command line tools and the benchmark.
- Equality of series counters with stored samples: only the inequality holds.
- One live slot per module and the live-attachment cap for reused slots: the code keeps neither.
