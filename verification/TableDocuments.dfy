/**
 * Attachments, thresholds and compatibility rules as documents, src/codec.cpp:865-930, 1133-1175, 1223-1250, 1313-1375,
 * src/snapshot.cpp:424-444.
 */
module TableDocuments {
  import opened Bytes
  import opened Ordering
  import opened Provenances
  import Utf8
  import opened Canonical
  import opened ObjectValue
  import opened FieldNames
  import opened Documents
  import opened Capability
  import Compatibility
  import opened Latch
  import opened HealthReport
  import opened RegistryState
  import opened EvidenceDocuments

  // ----- Attachments -----

  /** The note is one of the code's own sentences; the model keeps none and writes the empty text. */
  function AttachmentMembers(a: AttachmentRecord): seq<Member> {
    [Counter("attached_at_wall_ns", a.attachedWallNs), Counter("generation", a.generation),
     Counter("incarnation", a.incarnation), Flag("live", a.live), Label("note", []),
     Counter("port_index", a.portIndex), Counter("sequence", a.sequence), Label("slot", a.slot),
     Counter("source", a.source), Counter("source_epoch", a.epoch), Counter("uid", a.uid)]
  }

  function AttachmentDoc(a: AttachmentRecord): Value { MakeObject(AttachmentMembers(a)) }

  function DecodeAttachment(v: Value): Result<AttachmentRecord> {
    var slotText :- GetText(v, Ascii("slot"));
    var slot :- KeyFrom(slotText);
    var portIndex :- GetAtMost(v, Ascii("port_index"), MAX_U32);
    var uid :- GetUnsigned(v, Ascii("uid"));
    var incarnation :- GetAtMost(v, Ascii("incarnation"), MAX_U32);
    var source :- GetAtMost(v, Ascii("source"), MAX_U32);
    var epoch :- GetAtMost(v, Ascii("source_epoch"), MAX_U32);
    var generation :- GetUnsigned(v, Ascii("generation"));
    var sequence :- GetUnsigned(v, Ascii("sequence"));
    var wallNs :- GetInteger(v, Ascii("attached_at_wall_ns"));
    var live :- GetBoolean(v, Ascii("live"));
    var _ :- GetText(v, Ascii("note"));
    Ok(AttachmentRecord(slot, portIndex, uid, incarnation, source, epoch, generation, sequence, wallNs, live))
  }

  predicate AttachmentTyped(a: AttachmentRecord) {
    && IsKeyText(a.slot) && a.portIndex <= MAX_U32 && Word(a.uid)
    && a.incarnation <= MAX_U32 && a.source <= MAX_U32 && a.epoch <= MAX_U32
    && Word(a.generation) && Word(a.sequence) && Storable(a.attachedWallNs)
  }

  lemma AttachmentKeys(a: AttachmentRecord)
    ensures Named(AttachmentMembers(a))
  {
    hide Cast, Ascii, Alphabetical;
    AttachmentNames();
    NamedInOrder(AttachmentMembers(a), ATTACHMENT_NAMES, ATTACHMENT_SPLITS);
  }

  lemma AttachmentRead(a: AttachmentRecord)
    requires AttachmentTyped(a)
    ensures DecodeAttachment(AttachmentDoc(a)) == Ok(a)
  {
    hide MakeObject, Named, GetText, GetAtMost, GetUnsigned, GetInteger, GetBoolean, Cast, Ascii, Counter, Label, Flag,
         IsKeyText;
    var ms := AttachmentMembers(a);
    AttachmentKeys(a);
    SignedRead(ms, 0, "attached_at_wall_ns", a.attachedWallNs);
    CounterRead(ms, 1, "generation", a.generation, 0);
    BoundedRead(ms, 2, "incarnation", a.incarnation, MAX_U32);
    FlagRead(ms, 3, "live", a.live);
    LabelRead(ms, 4, "note", []);
    BoundedRead(ms, 5, "port_index", a.portIndex, MAX_U32);
    CounterRead(ms, 6, "sequence", a.sequence, 0);
    LabelRead(ms, 7, "slot", a.slot);
    BoundedRead(ms, 8, "source", a.source, MAX_U32);
    BoundedRead(ms, 9, "source_epoch", a.epoch, MAX_U32);
    CounterRead(ms, 10, "uid", a.uid, 0);
  }

  lemma AttachmentShape(a: AttachmentRecord)
    requires AttachmentTyped(a)
    ensures InKeyOrder(AttachmentDoc(a)) && Encodable(AttachmentDoc(a))
  {
    hide MakeObject, Named, Utf8.Valid, Ascii, Cast, IsKeyText;
    var ms := AttachmentMembers(a);
    AttachmentKeys(a);
    var parts := [4, 7];
    MadeShape(ms, parts);
    KeyIsUtf8(a.slot);
    KeyIsUtf8([]);
    assert Encodable(ms[parts[0]].value) && Encodable(ms[parts[1]].value);
  }

  // ----- Thresholds -----

  function DirectionCode(direction: Direction): nat { if direction == Above then 0 else 1 }

  function ThresholdMembers(t: Threshold, d: Doubles): seq<Member> {
    [Number("critical_enter", t.criticalEnter, d), Number("critical_exit", t.criticalExit, d),
     Number("degraded_enter", t.degradedEnter, d), Number("degraded_exit", t.degradedExit, d),
     Counter("direction", DirectionCode(t.direction)), Number("disagreement_tolerance", t.disagreementTolerance, d),
     Counter("escalate_after", t.escalateAfter), Counter("generation", t.generation),
     Flag("has_critical", t.hasCritical), Flag("has_degraded", t.hasDegraded), Counter("lane", t.lane),
     Flag("live", t.live), Counter("max_age_ns", t.maxAgeNs), Counter("metric", MetricCode(t.metric)),
     Member(Ascii("provenance"), ProvenanceDoc(t.provenance)), Counter("recover_after", t.recoverAfter),
     Counter("sequence", t.sequence), Counter("source", t.source), Counter("source_epoch", t.epoch)]
  }

  function ThresholdDoc(t: Threshold, d: Doubles): Value { MakeObject(ThresholdMembers(t, d)) }

  function DecodeThreshold(v: Value, d: Doubles): Result<Threshold> {
    var metric :- GetAtMost(v, Ascii("metric"), 7);
    var lane :- GetAtMost(v, Ascii("lane"), MAX_U16);
    var direction :- GetAtMost(v, Ascii("direction"), 1);
    var hasDegraded :- GetBoolean(v, Ascii("has_degraded"));
    var degradedEnter :- GetFinite(v, Ascii("degraded_enter"), d);
    var degradedExit :- GetFinite(v, Ascii("degraded_exit"), d);
    var hasCritical :- GetBoolean(v, Ascii("has_critical"));
    var criticalEnter :- GetFinite(v, Ascii("critical_enter"), d);
    var criticalExit :- GetFinite(v, Ascii("critical_exit"), d);
    var escalateAfter :- GetAtMost(v, Ascii("escalate_after"), MAX_U32);
    var recoverAfter :- GetAtMost(v, Ascii("recover_after"), MAX_U32);
    var maxAgeNs :- GetInteger(v, Ascii("max_age_ns"));
    var tolerance :- GetFinite(v, Ascii("disagreement_tolerance"), d);
    var field :- GetField(v, Ascii("provenance"));
    var provenance :- DecodeProvenance(field);
    var source :- GetAtMost(v, Ascii("source"), MAX_U32);
    var epoch :- GetAtMost(v, Ascii("source_epoch"), MAX_U32);
    var generation :- GetUnsigned(v, Ascii("generation"));
    var sequence :- GetUnsigned(v, Ascii("sequence"));
    var live :- GetBoolean(v, Ascii("live"));
    if lane > MAX_U16 || escalateAfter > MAX_U32 || recoverAfter > MAX_U32 then Err(Malformed)
    else
      Ok(Threshold(MetricOf(metric), lane, if direction == 0 then Above else Below, hasDegraded, degradedEnter,
                   degradedExit, hasCritical, criticalEnter, criticalExit, escalateAfter, recoverAfter, maxAgeNs,
                   tolerance, source, epoch, generation, sequence, provenance, live))
  }

  predicate ThresholdTyped(t: Threshold, d: Doubles) {
    && Exact(d, t.criticalEnter) && Exact(d, t.criticalExit) && Exact(d, t.degradedEnter) && Exact(d, t.degradedExit)
    && Exact(d, t.disagreementTolerance) && Storable(t.maxAgeNs) && t.source <= MAX_U32 && t.epoch <= MAX_U32
    && Word(t.generation) && Word(t.sequence)
  }

  predicate ThresholdTexts(t: Threshold) { ProvenanceTexts(t.provenance) }

  lemma ThresholdKeys(t: Threshold, d: Doubles)
    ensures Named(ThresholdMembers(t, d))
  {
    hide Cast, Ascii, Alphabetical, MakeObject, ProvenanceMembers;
    ThresholdNames();
    NamedInOrder(ThresholdMembers(t, d), THRESHOLD_NAMES, THRESHOLD_SPLITS);
  }

  lemma ThresholdBounds(t: Threshold, d: Doubles)
    requires ThresholdTyped(t, d)
    ensures var v := ThresholdDoc(t, d);
      && GetFinite(v, Ascii("critical_enter"), d) == Ok(t.criticalEnter)
      && GetFinite(v, Ascii("critical_exit"), d) == Ok(t.criticalExit)
      && GetFinite(v, Ascii("degraded_enter"), d) == Ok(t.degradedEnter)
      && GetFinite(v, Ascii("degraded_exit"), d) == Ok(t.degradedExit)
      && GetFinite(v, Ascii("disagreement_tolerance"), d) == Ok(t.disagreementTolerance)
  {
    hide MakeObject, Named, GetFinite, Cast, Ascii, Counter, Flag, Number, ProvenanceMembers, Exact, MetricCode;
    var ms := ThresholdMembers(t, d);
    ThresholdKeys(t, d);
    NumberRead(ms, 0, "critical_enter", t.criticalEnter, d);
    NumberRead(ms, 1, "critical_exit", t.criticalExit, d);
    NumberRead(ms, 2, "degraded_enter", t.degradedEnter, d);
    NumberRead(ms, 3, "degraded_exit", t.degradedExit, d);
    NumberRead(ms, 5, "disagreement_tolerance", t.disagreementTolerance, d);
  }

  lemma ThresholdStamp(t: Threshold, d: Doubles)
    requires ThresholdTyped(t, d)
    ensures var v := ThresholdDoc(t, d);
      && GetUnsigned(v, Ascii("generation")) == Ok(t.generation) && GetUnsigned(v, Ascii("sequence")) == Ok(t.sequence)
      && GetAtMost(v, Ascii("source"), MAX_U32) == Ok(t.source)
      && GetAtMost(v, Ascii("source_epoch"), MAX_U32) == Ok(t.epoch) && GetBoolean(v, Ascii("live")) == Ok(t.live)
      && GetBoolean(v, Ascii("has_critical")) == Ok(t.hasCritical)
      && GetBoolean(v, Ascii("has_degraded")) == Ok(t.hasDegraded)
  {
    hide MakeObject, Named, GetAtMost, GetUnsigned, GetInteger, GetBoolean, Cast, Ascii, Counter, Flag, Number,
         ProvenanceMembers, Exact, MetricCode;
    var ms := ThresholdMembers(t, d);
    ThresholdKeys(t, d);
    CounterRead(ms, 7, "generation", t.generation, 0);
    FlagRead(ms, 8, "has_critical", t.hasCritical);
    FlagRead(ms, 9, "has_degraded", t.hasDegraded);
    FlagRead(ms, 11, "live", t.live);
    CounterRead(ms, 16, "sequence", t.sequence, 0);
    BoundedRead(ms, 17, "source", t.source, MAX_U32);
    BoundedRead(ms, 18, "source_epoch", t.epoch, MAX_U32);
  }

  lemma ThresholdRead(t: Threshold, d: Doubles)
    requires ThresholdTyped(t, d)
    ensures DecodeThreshold(ThresholdDoc(t, d), d) == Ok(t)
  {
    hide MakeObject, Named, GetAtMost, GetUnsigned, GetInteger, GetBoolean, GetFinite, FieldOf, Cast, Ascii, Counter,
         Flag, Number, DecodeProvenance, ProvenanceMembers, Exact, MetricCode, MetricOf;
    var ms := ThresholdMembers(t, d);
    ThresholdKeys(t, d);
    ThresholdBounds(t, d);
    ThresholdStamp(t, d);
    MetricCodes(t.metric);
    ProvenanceRead(t.provenance);
    BoundedRead(ms, 4, "direction", DirectionCode(t.direction), 1);
    BoundedRead(ms, 6, "escalate_after", t.escalateAfter, MAX_U32);
    BoundedRead(ms, 10, "lane", t.lane, MAX_U16);
    SignedRead(ms, 12, "max_age_ns", t.maxAgeNs);
    BoundedRead(ms, 13, "metric", MetricCode(t.metric), 7);
    PartRead(ms, 14, "provenance", ProvenanceDoc(t.provenance));
    BoundedRead(ms, 15, "recover_after", t.recoverAfter, MAX_U32);
  }

  lemma ThresholdShape(t: Threshold, d: Doubles)
    requires ThresholdTyped(t, d)
    ensures InKeyOrder(ThresholdDoc(t, d)) && (Encodable(ThresholdDoc(t, d)) <==> ThresholdTexts(t))
  {
    hide MakeObject, Named, Ascii, Cast, ProvenanceTexts, ProvenanceMembers, Exact, IsNaN, MetricCode;
    var ms := ThresholdMembers(t, d);
    ThresholdKeys(t, d);
    ExactIsNumber(d, t.criticalEnter);
    ExactIsNumber(d, t.criticalExit);
    ExactIsNumber(d, t.degradedEnter);
    ExactIsNumber(d, t.degradedExit);
    ExactIsNumber(d, t.disagreementTolerance);
    var parts := [14];
    MadeShape(ms, parts);
    ProvenanceShape(t.provenance);
    assert ms[parts[0]].value == ProvenanceDoc(t.provenance);
  }

  /** The record's own generation and sequence are never set. */
  function PublishedMembers(t: ThresholdRecord, d: Doubles): seq<Member> {
    [Counter("generation", 0), Flag("live", t.live), Counter("sequence", 0),
     Member(Ascii("threshold"), ThresholdDoc(t.threshold, d))]
  }

  function PublishedDoc(t: ThresholdRecord, d: Doubles): Value { MakeObject(PublishedMembers(t, d)) }

  /** decode_threshold. */
  function DecodePublished(v: Value, d: Doubles): Result<ThresholdRecord> {
    if !v.Object? then Err(Malformed)
    else
      var field :- GetField(v, Ascii("threshold"));
      var threshold :- DecodeThreshold(field, d);
      Ok(ThresholdRecord(threshold, BooleanOr(v, Ascii("live"), true)))
  }

  lemma PublishedKeys(t: ThresholdRecord, d: Doubles)
    ensures Named(PublishedMembers(t, d))
  {
    hide Cast, Ascii, Alphabetical, MakeObject, ThresholdMembers;
    ThresholdEntryNames();
    NamedInOrder(PublishedMembers(t, d), THRESHOLD_ENTRY_NAMES, THRESHOLD_ENTRY_SPLITS);
  }

  lemma PublishedRead(t: ThresholdRecord, d: Doubles)
    requires ThresholdTyped(t.threshold, d)
    ensures DecodePublished(PublishedDoc(t, d), d) == Ok(t)
    ensures InKeyOrder(PublishedDoc(t, d)) && (Encodable(PublishedDoc(t, d)) <==> ThresholdTexts(t.threshold))
  {
    hide MakeObject, Named, BooleanOr, FieldOf, Cast, Ascii, Counter, Flag, DecodeThreshold, ThresholdMembers,
         ThresholdTyped, ThresholdTexts, Encodable, InKeyOrder;
    var ms := PublishedMembers(t, d);
    PublishedKeys(t, d);
    MadeIsObject(ms);
    ThresholdRead(t.threshold, d);
    FlagRead(ms, 1, "live", t.live);
    PartRead(ms, 3, "threshold", ThresholdDoc(t.threshold, d));
    PublishedShape(t, d);
  }

  lemma PublishedShape(t: ThresholdRecord, d: Doubles)
    requires ThresholdTyped(t.threshold, d)
    ensures InKeyOrder(PublishedDoc(t, d)) && (Encodable(PublishedDoc(t, d)) <==> ThresholdTexts(t.threshold))
  {
    hide MakeObject, Named, Cast, Ascii, ThresholdMembers, ThresholdTyped, ThresholdTexts;
    var ms := PublishedMembers(t, d);
    PublishedKeys(t, d);
    var parts := [3];
    MadeShape(ms, parts);
    ThresholdShape(t.threshold, d);
    assert ms[parts[0]].value == ThresholdDoc(t.threshold, d);
  }

  // ----- Compatibility rules -----

  type Requirement = Compatibility.Requirement
  type Rule = Compatibility.Rule

  function OpCode(op: Compatibility.Op): nat {
    match op
    case UnknownOp => 0
    case Equals => 1
    case NotEquals => 2
    case In => 3
    case NotIn => 4
    case SupersetOf => 5
    case SubsetOf => 6
    case Overlaps => 7
    case DisjointFrom => 8
    case AtMost => 9
    case AtLeast => 10
  }

  function OpFrom(code: nat): Compatibility.Op {
    if code == 0 then Compatibility.UnknownOp else if code == 1 then Compatibility.Equals
    else if code == 2 then Compatibility.NotEquals else if code == 3 then Compatibility.In
    else if code == 4 then Compatibility.NotIn else if code == 5 then Compatibility.SupersetOf
    else if code == 6 then Compatibility.SubsetOf else if code == 7 then Compatibility.Overlaps
    else if code == 8 then Compatibility.DisjointFrom else if code == 9 then Compatibility.AtMost
    else Compatibility.AtLeast
  }

  function VerdictCode(verdict: Compatibility.Verdict): nat {
    match verdict
    case UnknownVerdict => 0
    case AllowVerdict => 1
    case DenyVerdict => 2
    case UnsupportedVerdict => 3
  }

  function VerdictFrom(code: nat): Compatibility.Verdict {
    if code == 0 then Compatibility.UnknownVerdict else if code == 1 then Compatibility.AllowVerdict
    else if code == 2 then Compatibility.DenyVerdict else Compatibility.UnsupportedVerdict
  }

  function SubjectCode(subject: Compatibility.Subject): nat { if subject == Compatibility.ModuleSubject then 0 else 1 }

  function RequirementMembers(q: Requirement, d: Doubles): seq<Member> {
    [Counter("key", q.key), Label("note", q.note), Counter("op", OpCode(q.op)),
     Member(Ascii("operand"), ValueDoc(q.operand, d)), Counter("subject", SubjectCode(q.subject)),
     Label("subkey", q.subkey)]
  }

  function RequirementDoc(q: Requirement, d: Doubles): Value { MakeObject(RequirementMembers(q, d)) }

  function DecodeRequirement(v: Value, d: Doubles): Result<Requirement> {
    var subject :- GetAtMost(v, Ascii("subject"), 1);
    var key :- GetAtMost(v, Ascii("key"), LAST_CAPABILITY);
    var subkey :- GetText(v, Ascii("subkey"));
    var op :- GetAtMost(v, Ascii("op"), 10);
    var field :- GetField(v, Ascii("operand"));
    var operand :- DecodeValue(field, d);
    var note :- GetText(v, Ascii("note"));
    var named := if subject == 0 then Compatibility.ModuleSubject else Compatibility.PortSubject;
    Ok(Compatibility.Requirement(named, key, subkey, OpFrom(op), operand, note))
  }

  ghost predicate RequirementTyped(q: Requirement, d: Doubles) { q.key <= LAST_CAPABILITY && ValueTyped(q.operand, d) }

  predicate RequirementRanges(q: Requirement) { ValueRanges(q.operand) }

  predicate RequirementTexts(q: Requirement) { Utf8.Valid(q.note) && Utf8.Valid(q.subkey) && ValueTexts(q.operand) }

  lemma RequirementKeys(q: Requirement, d: Doubles)
    ensures Named(RequirementMembers(q, d))
  {
    hide Cast, Ascii, Alphabetical, MakeObject, ValueMembers;
    RequirementNames();
    NamedInOrder(RequirementMembers(q, d), REQUIREMENT_NAMES, REQUIREMENT_SPLITS);
  }

  lemma OpCodes(op: Compatibility.Op)
    ensures OpCode(op) <= 10 && OpFrom(OpCode(op)) == op
  {
  }

  lemma RequirementRead(q: Requirement, d: Doubles)
    requires RequirementTyped(q, d)
    ensures RequirementRanges(q) ==> DecodeRequirement(RequirementDoc(q, d), d) == Ok(q)
    ensures !RequirementRanges(q) ==> DecodeRequirement(RequirementDoc(q, d), d).Err?
  {
    hide MakeObject, Named, GetText, GetAtMost, FieldOf, Cast, Ascii, Counter, Label, DecodeValue, ValueMembers,
         ValueTyped, ValueRanges, OpCode, OpFrom;
    var ms := RequirementMembers(q, d);
    RequirementKeys(q, d);
    OpCodes(q.op);
    ValueRead(q.operand, d);
    BoundedRead(ms, 0, "key", q.key, LAST_CAPABILITY);
    LabelRead(ms, 1, "note", q.note);
    BoundedRead(ms, 2, "op", OpCode(q.op), 10);
    PartRead(ms, 3, "operand", ValueDoc(q.operand, d));
    BoundedRead(ms, 4, "subject", SubjectCode(q.subject), 1);
    LabelRead(ms, 5, "subkey", q.subkey);
  }

  lemma RequirementShape(q: Requirement, d: Doubles)
    requires RequirementTyped(q, d)
    ensures InKeyOrder(RequirementDoc(q, d)) && (Encodable(RequirementDoc(q, d)) <==> RequirementTexts(q))
  {
    hide MakeObject, Named, Utf8.Valid, Ascii, Cast, ValueTexts, ValueTyped, ValueMembers, OpCode;
    var ms := RequirementMembers(q, d);
    RequirementKeys(q, d);
    var parts := [1, 3, 5];
    MadeShape(ms, parts);
    ValueShape(q.operand, d);
    assert Encodable(ms[parts[0]].value) == Utf8.Valid(q.note) && Encodable(ms[parts[2]].value) == Utf8.Valid(q.subkey);
    assert Encodable(ms[parts[1]].value) == ValueTexts(q.operand);
  }

  function RequirementDocs(d: Doubles): Requirement -> Value { (q: Requirement) => RequirementDoc(q, d) }

  function RequirementFrom(d: Doubles): Value -> Result<Requirement> { (v: Value) => DecodeRequirement(v, d) }

  lemma RequirementsRead(qs: seq<Requirement>, d: Doubles)
    requires forall q :: q in qs ==> RequirementTyped(q, d)
    ensures (forall q :: q in qs ==> RequirementRanges(q)) ==>
            DecodeAll(EncodeAll(qs, RequirementDocs(d)), RequirementFrom(d)) == Ok(qs)
    ensures (exists q :: q in qs && !RequirementRanges(q)) ==>
            DecodeAll(EncodeAll(qs, RequirementDocs(d)), RequirementFrom(d)).Err?
    ensures var es := Array(EncodeAll(qs, RequirementDocs(d)));
      InKeyOrder(es) && (Encodable(es) <==> forall q :: q in qs ==> RequirementTexts(q))
  {
    hide DecodeAll, EncodeAll, RequirementTyped, RequirementRanges, RequirementTexts, RequirementMembers,
         DecodeRequirement, Encodable, InKeyOrder;
    forall q | q in qs
      ensures RequirementRanges(q) ==> RequirementFrom(d)(RequirementDocs(d)(q)) == Ok(q)
      ensures !RequirementRanges(q) ==> RequirementFrom(d)(RequirementDocs(d)(q)).Err?
      ensures InKeyOrder(RequirementDocs(d)(q)) && (Encodable(RequirementDocs(d)(q)) <==> RequirementTexts(q))
    {
      RequirementRead(q, d);
      RequirementShape(q, d);
    }
    AllRead(qs, RequirementDocs(d), RequirementFrom(d), RequirementRanges);
    AllShape(qs, RequirementDocs(d), RequirementTexts);
  }

  // A rule as its author gave it, and the entry of the rule table around it.

  datatype Content = Content(name: Text, requirements: seq<Requirement>, verdict: Compatibility.Verdict, priority: int,
                             rationale: Text, provenance: Provenance, enabled: bool)

  function ContentOf(r: Rule): Content {
    Content(r.name, r.requirements, r.verdict, r.priority, r.rationale, r.provenance, r.enabled)
  }

  function ContentMembers(c: Content, d: Doubles): seq<Member> {
    [Flag("enabled", c.enabled), Label("name", c.name), Counter("priority", c.priority),
     Member(Ascii("provenance"), ProvenanceDoc(c.provenance)), Label("rationale", c.rationale),
     Member(Ascii("requirements"), Array(EncodeAll(c.requirements, RequirementDocs(d)))),
     Counter("verdict", VerdictCode(c.verdict))]
  }

  function ContentDoc(c: Content, d: Doubles): Value { MakeObject(ContentMembers(c, d)) }

  predicate Signed32(n: int) { -0x8000_0000 <= n <= 0x7FFF_FFFF }

  function DecodeContent(v: Value, d: Doubles): Result<Content> {
    var name :- GetText(v, Ascii("name"));
    var es :- GetArray(v, Ascii("requirements"));
    var requirements :- DecodeAll(es, RequirementFrom(d));
    var verdict :- GetAtMost(v, Ascii("verdict"), 3);
    var priority :- GetInteger(v, Ascii("priority"));
    if !Signed32(priority) then Err(Malformed)
    else
      var rationale :- GetText(v, Ascii("rationale"));
      var field :- GetField(v, Ascii("provenance"));
      var provenance :- DecodeProvenance(field);
      var enabled :- GetBoolean(v, Ascii("enabled"));
      Ok(Content(name, requirements, VerdictFrom(verdict), priority, rationale, provenance, enabled))
  }

  ghost predicate ContentTyped(c: Content, d: Doubles) {
    Signed32(c.priority) && forall q :: q in c.requirements ==> RequirementTyped(q, d)
  }

  predicate ContentRanges(c: Content) { forall q :: q in c.requirements ==> RequirementRanges(q) }

  predicate ContentTexts(c: Content) {
    && Utf8.Valid(c.name) && Utf8.Valid(c.rationale) && ProvenanceTexts(c.provenance)
    && forall q :: q in c.requirements ==> RequirementTexts(q)
  }

  lemma ContentKeys(c: Content, d: Doubles)
    ensures Named(ContentMembers(c, d))
  {
    hide Cast, Ascii, Alphabetical, MakeObject, ProvenanceMembers, EncodeAll;
    RuleNames();
    NamedInOrder(ContentMembers(c, d), RULE_NAMES, RULE_SPLITS);
  }

  lemma ContentRead(c: Content, d: Doubles)
    requires ContentTyped(c, d)
    ensures ContentRanges(c) ==> DecodeContent(ContentDoc(c, d), d) == Ok(c)
    ensures !ContentRanges(c) ==> DecodeContent(ContentDoc(c, d), d).Err?
  {
    hide MakeObject, Named, GetText, GetAtMost, GetInteger, GetBoolean, GetArray, FieldOf, Cast, Ascii, Counter, Label,
         Flag, DecodeProvenance, ProvenanceMembers, EncodeAll, DecodeAll, RequirementTyped, RequirementRanges,
         Encodable, InKeyOrder;
    var ms := ContentMembers(c, d);
    ContentKeys(c, d);
    RequirementsRead(c.requirements, d);
    ProvenanceRead(c.provenance);
    FlagRead(ms, 0, "enabled", c.enabled);
    LabelRead(ms, 1, "name", c.name);
    SignedRead(ms, 2, "priority", c.priority);
    PartRead(ms, 3, "provenance", ProvenanceDoc(c.provenance));
    LabelRead(ms, 4, "rationale", c.rationale);
    ListRead(ms, 5, "requirements", EncodeAll(c.requirements, RequirementDocs(d)));
    BoundedRead(ms, 6, "verdict", VerdictCode(c.verdict), 3);
  }

  lemma ContentShape(c: Content, d: Doubles)
    requires ContentTyped(c, d)
    ensures InKeyOrder(ContentDoc(c, d)) && (Encodable(ContentDoc(c, d)) <==> ContentTexts(c))
  {
    hide MakeObject, Named, Utf8.Valid, Ascii, Cast, ProvenanceTexts, ProvenanceMembers, RequirementTexts,
         RequirementTyped, EncodeAll, DecodeAll;
    var ms := ContentMembers(c, d);
    ContentKeys(c, d);
    var parts := [1, 3, 4, 5];
    MadeShape(ms, parts);
    ProvenanceShape(c.provenance);
    RequirementsRead(c.requirements, d);
    assert Encodable(ms[parts[0]].value) == Utf8.Valid(c.name)
      && Encodable(ms[parts[2]].value) == Utf8.Valid(c.rationale);
    assert ms[parts[1]].value == ProvenanceDoc(c.provenance);
    assert ms[parts[3]].value == Array(EncodeAll(c.requirements, RequirementDocs(d)));
  }

  function RuleMembers(r: Rule, d: Doubles): seq<Member> {
    [Counter("generation", r.generation), Counter("id", r.id), Flag("live", r.live),
     Member(Ascii("rule"), ContentDoc(ContentOf(r), d)), Counter("sequence", r.sequence), Counter("source", r.source),
     Counter("source_epoch", r.epoch)]
  }

  function RuleDoc(r: Rule, d: Doubles): Value { MakeObject(RuleMembers(r, d)) }

  function DecodeRule(v: Value, d: Doubles): Result<Rule> {
    var id :- GetAtMost(v, Ascii("id"), MAX_U32);
    var field :- GetField(v, Ascii("rule"));
    var c :- DecodeContent(field, d);
    var source :- GetAtMost(v, Ascii("source"), MAX_U32);
    var epoch :- GetAtMost(v, Ascii("source_epoch"), MAX_U32);
    var generation :- GetUnsigned(v, Ascii("generation"));
    var sequence :- GetUnsigned(v, Ascii("sequence"));
    var live :- GetBoolean(v, Ascii("live"));
    Ok(Compatibility.Rule(id, c.name, c.requirements, c.verdict, c.priority, c.rationale, c.enabled, live, generation,
                          source,
                          epoch, sequence, c.provenance))
  }

  ghost predicate RuleTyped(r: Rule, d: Doubles) {
    && r.id <= MAX_U32 && r.source <= MAX_U32 && r.epoch <= MAX_U32 && Word(r.generation) && Word(r.sequence)
    && ContentTyped(ContentOf(r), d)
  }

  lemma RuleKeys(r: Rule, d: Doubles)
    ensures Named(RuleMembers(r, d))
  {
    hide Cast, Ascii, Alphabetical, MakeObject, ContentMembers;
    RuleEntryNames();
    NamedInOrder(RuleMembers(r, d), RULE_ENTRY_NAMES, RULE_ENTRY_SPLITS);
  }

  lemma RuleRead(r: Rule, d: Doubles)
    requires RuleTyped(r, d)
    ensures ContentRanges(ContentOf(r)) ==> DecodeRule(RuleDoc(r, d), d) == Ok(r)
    ensures !ContentRanges(ContentOf(r)) ==> DecodeRule(RuleDoc(r, d), d).Err?
  {
    hide MakeObject, Named, GetAtMost, GetUnsigned, GetInteger, GetBoolean, FieldOf, Cast, Ascii, Counter, Flag,
         DecodeContent, ContentMembers, ContentTyped, ContentRanges;
    var ms := RuleMembers(r, d);
    RuleKeys(r, d);
    ContentRead(ContentOf(r), d);
    CounterRead(ms, 0, "generation", r.generation, 0);
    BoundedRead(ms, 1, "id", r.id, MAX_U32);
    FlagRead(ms, 2, "live", r.live);
    PartRead(ms, 3, "rule", ContentDoc(ContentOf(r), d));
    CounterRead(ms, 4, "sequence", r.sequence, 0);
    BoundedRead(ms, 5, "source", r.source, MAX_U32);
    BoundedRead(ms, 6, "source_epoch", r.epoch, MAX_U32);
  }

  lemma RuleShape(r: Rule, d: Doubles)
    requires RuleTyped(r, d)
    ensures InKeyOrder(RuleDoc(r, d)) && (Encodable(RuleDoc(r, d)) <==> ContentTexts(ContentOf(r)))
  {
    hide MakeObject, Named, Ascii, Cast, ContentMembers, ContentTyped, ContentTexts;
    var ms := RuleMembers(r, d);
    RuleKeys(r, d);
    var parts := [3];
    MadeShape(ms, parts);
    ContentShape(ContentOf(r), d);
    assert ms[parts[0]].value == ContentDoc(ContentOf(r), d);
  }
}
