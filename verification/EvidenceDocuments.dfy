/**
 * Claims, declarations, samples, latches and lifecycle events as documents, src/codec.cpp:229-254, 363-411, 519-695,
 * 809-960, 1181-1221.
 */
module EvidenceDocuments {
  // For each: the members written, the fields read back, which texts it stores, and which values the reader refuses.

  import opened Bytes
  import opened Ordering
  import opened Provenances
  import Utf8
  import opened Canonical
  import opened ObjectValue
  import opened FieldNames
  import opened Documents
  import opened Consensus
  import opened Capability
  import opened Lifecycle
  import opened Latch
  import opened Health
  import opened HealthReport
  import opened RegistryState

  const MAX_U16 := 0xFFFF

  /** A counter of the registry: an unsigned word that signed storage holds. */
  predicate Word(n: nat) { Storable(n) }

  // ----- Provenance -----

  function KindCode(kind: EvidenceKind): nat {
    match kind
    case RealEvidence => 0
    case SyntheticEvidence => 1
    case UndeclaredEvidence => 2
  }

  function KindFrom(code: nat): EvidenceKind {
    if code == 0 then RealEvidence else if code == 1 then SyntheticEvidence else UndeclaredEvidence
  }

  /** The model keeps no digest of the capture and writes the zero digest. */
  const ZERO_DIGEST: Text := Zeros(64)

  function Zeros(n: nat): (t: Text)
    ensures |t| == n && forall i :: 0 <= i < n ==> t[i] == 0x30
  {
    if n == 0 then [] else [0x30] + Zeros(n - 1)
  }

  /** SHA-256 hex text. */
  predicate IsDigest(t: Text) { |t| == 64 && forall i :: 0 <= i < 64 ==> IsHexDigit(t[i]) }

  predicate IsHexDigit(b: Byte) { 0x30 <= b <= 0x39 || 0x41 <= b <= 0x46 || 0x61 <= b <= 0x66 }

  function ProvenanceMembers(p: Provenance): seq<Member> {
    [Label("capture_ref", p.captureRef), Label("content_digest", ZERO_DIGEST), Counter("kind", KindCode(p.kind)),
     Label("method", p.procedure), Label("origin", p.origin)]
  }

  function ProvenanceDoc(p: Provenance): Value { MakeObject(ProvenanceMembers(p)) }

  function DecodeProvenance(v: Value): Result<Provenance> {
    var kind :- GetAtMost(v, Ascii("kind"), 2);
    var origin :- GetText(v, Ascii("origin"));
    var procedure :- GetText(v, Ascii("method"));
    var digest :- GetText(v, Ascii("content_digest"));
    if !IsDigest(digest) then Err(Malformed)
    else
      var captureRef :- GetText(v, Ascii("capture_ref"));
      Ok(Provenance(KindFrom(kind), origin, procedure, captureRef))
  }

  predicate ProvenanceTexts(p: Provenance) {
    Utf8.Valid(p.origin) && Utf8.Valid(p.procedure) && Utf8.Valid(p.captureRef)
  }

  lemma ProvenanceKeys(p: Provenance)
    ensures Named(ProvenanceMembers(p))
  {
    hide Cast, Ascii, Alphabetical;
    ProvenanceNames();
    NamedInOrder(ProvenanceMembers(p), PROVENANCE_NAMES, PROVENANCE_SPLITS);
  }

  lemma ZeroIsDigest()
    ensures IsDigest(ZERO_DIGEST)
  {
  }

  lemma ProvenanceRead(p: Provenance)
    ensures DecodeProvenance(ProvenanceDoc(p)) == Ok(p)
  {
    hide MakeObject, Named, GetText, GetAtMost, Cast, Ascii, Counter, Label, IsDigest;
    var ms := ProvenanceMembers(p);
    ProvenanceKeys(p);
    ZeroIsDigest();
    LabelRead(ms, 0, "capture_ref", p.captureRef);
    LabelRead(ms, 1, "content_digest", ZERO_DIGEST);
    BoundedRead(ms, 2, "kind", KindCode(p.kind), 2);
    LabelRead(ms, 3, "method", p.procedure);
    LabelRead(ms, 4, "origin", p.origin);
  }

  lemma ProvenanceShape(p: Provenance)
    ensures InKeyOrder(ProvenanceDoc(p)) && (Encodable(ProvenanceDoc(p)) <==> ProvenanceTexts(p))
  {
    hide MakeObject, Named, Utf8.Valid, Ascii, Cast, Zeros;
    var ms := ProvenanceMembers(p);
    ProvenanceKeys(p);
    var parts := [0, 1, 3, 4];
    MadeShape(ms, parts);
    assert Utf8.Valid(ZERO_DIGEST) by { AsciiIsUtf8(ZERO_DIGEST); }
    assert Encodable(ms[parts[0]].value) == Utf8.Valid(p.captureRef) && Encodable(ms[parts[1]].value);
    assert Encodable(ms[parts[2]].value) == Utf8.Valid(p.procedure)
      && Encodable(ms[parts[3]].value) == Utf8.Valid(p.origin);
  }

  // ----- Lifecycle events -----

  function StateCode(s: LifecycleState): nat {
    match s
    case Discovered => 0
    case Registered => 1
    case Attached => 2
    case Active => 3
    case Degraded => 4
    case Quarantined => 5
    case Removed => 6
    case Retired => 7
    case Replaced => 8
  }

  function StateFrom(code: nat): LifecycleState {
    if code == 0 then Discovered else if code == 1 then Registered else if code == 2 then Attached
    else if code == 3 then Active else if code == 4 then Degraded else if code == 5 then Quarantined
    else if code == 6 then Removed else if code == 7 then Retired else Replaced
  }

  function EventMembers(e: LifecycleEvent): seq<Member> {
    [Counter("from", StateCode(e.from)), Counter("generation", e.generation), Counter("incarnation", e.incarnation),
     Label("reason", e.reason), Counter("sequence", e.sequence), Counter("source", e.source),
     Counter("source_epoch", e.epoch), Counter("to", StateCode(e.to)), Counter("wall_ns", e.wallNs)]
  }

  function EventDoc(e: LifecycleEvent): Value { MakeObject(EventMembers(e)) }

  function DecodeEvent(v: Value): Result<LifecycleEvent> {
    var from :- GetAtMost(v, Ascii("from"), 8);
    var to :- GetAtMost(v, Ascii("to"), 8);
    var incarnation :- GetAtMost(v, Ascii("incarnation"), MAX_U32);
    var reason :- GetText(v, Ascii("reason"));
    var source :- GetAtMost(v, Ascii("source"), MAX_U32);
    var epoch :- GetAtMost(v, Ascii("source_epoch"), MAX_U32);
    var generation :- GetUnsigned(v, Ascii("generation"));
    var sequence :- GetUnsigned(v, Ascii("sequence"));
    var wallNs :- GetInteger(v, Ascii("wall_ns"));
    Ok(LifecycleEvent(StateFrom(from), StateFrom(to), incarnation, source, epoch, generation, sequence, wallNs, reason))
  }

  /** What the fields' types hold, with the registry's own counters below 63 bits. */
  predicate EventTyped(e: LifecycleEvent) {
    && e.incarnation <= MAX_U32 && e.source <= MAX_U32 && e.epoch <= MAX_U32
    && Word(e.generation) && Word(e.sequence) && Storable(e.wallNs)
  }

  predicate EventTexts(e: LifecycleEvent) { Utf8.Valid(e.reason) }

  lemma EventKeys(e: LifecycleEvent)
    ensures Named(EventMembers(e))
  {
    hide Cast, Ascii, Alphabetical;
    EventNames();
    NamedInOrder(EventMembers(e), EVENT_NAMES, EVENT_SPLITS);
  }

  lemma EventRead(e: LifecycleEvent)
    requires EventTyped(e)
    ensures DecodeEvent(EventDoc(e)) == Ok(e)
  {
    hide MakeObject, Named, GetText, GetAtMost, GetUnsigned, GetInteger, Cast, Ascii, Counter, Label;
    var ms := EventMembers(e);
    EventKeys(e);
    BoundedRead(ms, 0, "from", StateCode(e.from), 8);
    CounterRead(ms, 1, "generation", e.generation, 0);
    BoundedRead(ms, 2, "incarnation", e.incarnation, MAX_U32);
    LabelRead(ms, 3, "reason", e.reason);
    CounterRead(ms, 4, "sequence", e.sequence, 0);
    BoundedRead(ms, 5, "source", e.source, MAX_U32);
    BoundedRead(ms, 6, "source_epoch", e.epoch, MAX_U32);
    BoundedRead(ms, 7, "to", StateCode(e.to), 8);
    SignedRead(ms, 8, "wall_ns", e.wallNs);
  }

  lemma EventShape(e: LifecycleEvent)
    ensures InKeyOrder(EventDoc(e)) && (Encodable(EventDoc(e)) <==> EventTexts(e))
  {
    hide MakeObject, Named, Utf8.Valid, Ascii, Cast;
    var ms := EventMembers(e);
    EventKeys(e);
    var parts := [3];
    MadeShape(ms, parts);
    assert Encodable(ms[parts[0]].value) == Utf8.Valid(e.reason);
  }

  // ----- Identity claims -----

  const LAST_IDENTITY_FIELD := 10

  function ClaimMembers(c: IdentityClaim): seq<Member> {
    [Wide("clock_domain", 0), Counter("field", c.attr), Counter("generation", c.generation),
     Counter("incarnation", c.incarnation), Flag("live", c.live), Counter("module", c.moduleUid),
     Counter("observed_at_wall_ns", c.wallNs), Member(Ascii("provenance"), ProvenanceDoc(c.provenance)),
     Counter("sequence", c.sequence), Counter("source", c.source), Counter("source_epoch", c.epoch),
     Label("subkey", c.subkey), Label("value", c.value)]
  }

  function ClaimDoc(c: IdentityClaim): Value { MakeObject(ClaimMembers(c)) }

  function DecodeClaim(v: Value): Result<IdentityClaim> {
    var attr :- GetAtMost(v, Ascii("field"), LAST_IDENTITY_FIELD);
    var subkey :- GetText(v, Ascii("subkey"));
    var value :- GetText(v, Ascii("value"));
    var source :- GetAtMost(v, Ascii("source"), MAX_U32);
    var epoch :- GetAtMost(v, Ascii("source_epoch"), MAX_U32);
    var uid :- GetUnsigned(v, Ascii("module"));
    var incarnation :- GetAtMost(v, Ascii("incarnation"), MAX_U32);
    var generation :- GetUnsigned(v, Ascii("generation"));
    var sequence :- GetUnsigned(v, Ascii("sequence"));
    var wallNs :- GetInteger(v, Ascii("observed_at_wall_ns"));
    var _ :- GetUnsignedField(v, Ascii("clock_domain"));
    var field :- GetField(v, Ascii("provenance"));
    var provenance :- DecodeProvenance(field);
    var live :- GetBoolean(v, Ascii("live"));
    Ok(Claim(attr, subkey, value, source, epoch, uid, incarnation, [], generation, sequence, wallNs, provenance, live))
  }

  predicate ClaimTyped(c: IdentityClaim) {
    && c.attr <= LAST_IDENTITY_FIELD && c.port == [] && Word(c.moduleUid)
    && c.incarnation <= MAX_U32 && c.source <= MAX_U32 && c.epoch <= MAX_U32
    && Word(c.generation) && Word(c.sequence) && Storable(c.wallNs)
  }

  predicate ClaimTexts(c: IdentityClaim) {
    Utf8.Valid(c.subkey) && Utf8.Valid(c.value) && ProvenanceTexts(c.provenance)
  }

  lemma ClaimKeys(c: IdentityClaim)
    ensures Named(ClaimMembers(c))
  {
    hide Cast, Ascii, MakeObject, Alphabetical;
    ClaimNames();
    NamedInOrder(ClaimMembers(c), CLAIM_NAMES, CLAIM_SPLITS);
  }

  lemma ClaimStamp(c: IdentityClaim)
    requires ClaimTyped(c)
    ensures var v := ClaimDoc(c);
      && GetUnsigned(v, Ascii("generation")) == Ok(c.generation)
      && GetAtMost(v, Ascii("incarnation"), MAX_U32) == Ok(c.incarnation) && GetBoolean(v, Ascii("live")) == Ok(c.live)
      && GetUnsigned(v, Ascii("module")) == Ok(c.moduleUid) && GetUnsigned(v, Ascii("sequence")) == Ok(c.sequence)
      && GetAtMost(v, Ascii("source"), MAX_U32) == Ok(c.source)
      && GetAtMost(v, Ascii("source_epoch"), MAX_U32) == Ok(c.epoch)
  {
    hide MakeObject, Named, GetText, GetAtMost, GetUnsigned, GetUnsignedField, GetInteger, GetBoolean, FieldOf, Cast,
         Ascii, Counter, Label, Flag, Wide, DecodeProvenance, ProvenanceMembers;
    var ms := ClaimMembers(c);
    ClaimKeys(c);
    CounterRead(ms, 2, "generation", c.generation, 0);
    BoundedRead(ms, 3, "incarnation", c.incarnation, MAX_U32);
    FlagRead(ms, 4, "live", c.live);
    CounterRead(ms, 5, "module", c.moduleUid, 0);
    CounterRead(ms, 8, "sequence", c.sequence, 0);
    BoundedRead(ms, 9, "source", c.source, MAX_U32);
    BoundedRead(ms, 10, "source_epoch", c.epoch, MAX_U32);
  }

  lemma ClaimRead(c: IdentityClaim)
    requires ClaimTyped(c)
    ensures DecodeClaim(ClaimDoc(c)) == Ok(c)
  {
    hide MakeObject, Named, GetText, GetAtMost, GetUnsigned, GetUnsignedField, GetInteger, GetBoolean, FieldOf, Cast,
         Ascii, Counter, Label, Flag, Wide, DecodeProvenance, ProvenanceMembers;
    var ms := ClaimMembers(c);
    ClaimKeys(c);
    ClaimStamp(c);
    ProvenanceRead(c.provenance);
    WideRead(ms, 0, "clock_domain", 0);
    BoundedRead(ms, 1, "field", c.attr, LAST_IDENTITY_FIELD);
    SignedRead(ms, 6, "observed_at_wall_ns", c.wallNs);
    PartRead(ms, 7, "provenance", ProvenanceDoc(c.provenance));
    LabelRead(ms, 11, "subkey", c.subkey);
    LabelRead(ms, 12, "value", c.value);
  }

  lemma ClaimShape(c: IdentityClaim)
    ensures InKeyOrder(ClaimDoc(c)) && (Encodable(ClaimDoc(c)) <==> ClaimTexts(c))
  {
    hide MakeObject, Named, Utf8.Valid, Ascii, Cast, ProvenanceTexts;
    var ms := ClaimMembers(c);
    ClaimKeys(c);
    var parts := [7, 11, 12];
    MadeShape(ms, parts);
    ProvenanceShape(c.provenance);
    assert Encodable(ms[parts[0]].value) == ProvenanceTexts(c.provenance);
    assert Encodable(ms[parts[1]].value) == Utf8.Valid(c.subkey)
      && Encodable(ms[parts[2]].value) == Utf8.Valid(c.value);
  }

  // ----- Capability values -----

  function DescribedMembers(s: SpectrumDescriptor, d: Doubles): seq<Member> {
    [Number("center_nm", s.centerNm, d), Label("channel", s.channel), Number("frequency_thz", s.frequencyThz, d),
     Counter("grid", s.grid), Counter("lane", s.lane)]
  }

  function DescribedDoc(s: SpectrumDescriptor, d: Doubles): Value { MakeObject(DescribedMembers(s, d)) }

  const LAST_GRID := 6

  /** read_spectrum_descriptor. */
  function DecodeDescribed(v: Value, d: Doubles): Result<SpectrumDescriptor> {
    var lane :- GetAtMost(v, Ascii("lane"), MAX_U16);
    var center :- GetFinite(v, Ascii("center_nm"), d);
    var frequency :- GetFinite(v, Ascii("frequency_thz"), d);
    if center < 0.0 || frequency < 0.0 then Err(Malformed)
    else
      var grid :- GetAtMost(v, Ascii("grid"), LAST_GRID);
      var channel :- GetText(v, Ascii("channel"));
      Ok(SpectrumDescriptor(lane, center, frequency, grid, channel))
  }

  predicate DescribedTyped(s: SpectrumDescriptor, d: Doubles) {
    s.lane <= MAX_U16 && s.grid <= LAST_GRID && Exact(d, s.centerNm) && Exact(d, s.frequencyThz)
  }

  predicate DescribedRanges(s: SpectrumDescriptor) { s.centerNm >= 0.0 && s.frequencyThz >= 0.0 }

  predicate DescribedTexts(s: SpectrumDescriptor) { Utf8.Valid(s.channel) }

  lemma DescribedKeys(s: SpectrumDescriptor, d: Doubles)
    ensures Named(DescribedMembers(s, d))
  {
    hide Cast, Ascii, Alphabetical;
    DescribedNames();
    NamedInOrder(DescribedMembers(s, d), DESCRIBED_NAMES, DESCRIBED_SPLITS);
  }

  lemma DescribedRead(s: SpectrumDescriptor, d: Doubles)
    requires DescribedTyped(s, d)
    ensures DescribedRanges(s) ==> DecodeDescribed(DescribedDoc(s, d), d) == Ok(s)
    ensures !DescribedRanges(s) ==> DecodeDescribed(DescribedDoc(s, d), d).Err?
  {
    hide MakeObject, Named, GetText, GetAtMost, GetFinite, Cast, Ascii, Counter, Label, Number, Exact;
    var ms := DescribedMembers(s, d);
    DescribedKeys(s, d);
    NumberRead(ms, 0, "center_nm", s.centerNm, d);
    LabelRead(ms, 1, "channel", s.channel);
    NumberRead(ms, 2, "frequency_thz", s.frequencyThz, d);
    BoundedRead(ms, 3, "grid", s.grid, LAST_GRID);
    BoundedRead(ms, 4, "lane", s.lane, MAX_U16);
  }

  /** A finite double has an encoding. */
  lemma ExactIsNumber(d: Doubles, x: real)
    requires Exact(d, x)
    ensures Plain(Real(d.bits(x)))
  {
  }

  lemma DescribedShape(s: SpectrumDescriptor, d: Doubles)
    requires DescribedTyped(s, d)
    ensures InKeyOrder(DescribedDoc(s, d)) && (Encodable(DescribedDoc(s, d)) <==> DescribedTexts(s))
  {
    hide MakeObject, Named, Utf8.Valid, Ascii, Cast, Exact, IsNaN;
    var ms := DescribedMembers(s, d);
    DescribedKeys(s, d);
    ExactIsNumber(d, s.centerNm);
    ExactIsNumber(d, s.frequencyThz);
    var parts := [1];
    MadeShape(ms, parts);
    assert Encodable(ms[parts[0]].value) == Utf8.Valid(s.channel);
  }

  function DescribedDocs(d: Doubles): SpectrumDescriptor -> Value { (s: SpectrumDescriptor) => DescribedDoc(s, d) }

  function DescribedFrom(d: Doubles): Value -> Result<SpectrumDescriptor> { (v: Value) => DecodeDescribed(v, d) }

  function NumberDoc(n: int): Value { Integer(Cast(n)) }

  function NumberFrom(v: Value): Result<int> { if v.Integer? then Ok(v.i) else Err(Malformed) }

  function TextDoc(t: Text): Value { String(t) }

  function TextFrom(v: Value): Result<Text> { if v.String? then Ok(v.text) else Err(Malformed) }

  function KindName(v: CapabilityValue): string {
    match v
    case NoValue => "none"
    case BooleanValue(_) => "boolean"
    case CountValue(_) => "count"
    case RealValue(_) => "real"
    case EnumValue(_) => "enum"
    case EnumSet(_) => "enum_set"
    case TextValue(_) => "text"
    case TextSet(_) => "text_set"
    case Spectrum(_) => "spectrum"
  }

  function ValueMembers(v: CapabilityValue, d: Doubles): seq<Member> {
    match v
    case NoValue => [Label("k", Ascii("none"))]
    case BooleanValue(flag) => [Flag("b", flag), Label("k", Ascii("boolean"))]
    case CountValue(count) => [Counter("i", count), Label("k", Ascii("count"))]
    case EnumValue(enumerator) => [Counter("i", enumerator), Label("k", Ascii("enum"))]
    case RealValue(x) => [Label("k", Ascii("real")), Number("r", x, d)]
    case TextValue(text) => [Label("k", Ascii("text")), Label("t", text)]
    case EnumSet(es) => [Label("k", Ascii("enum_set")), Member(Ascii("s"), Array(EncodeAll(es, NumberDoc)))]
    case TextSet(texts) => [Label("k", Ascii("text_set")), Member(Ascii("s"), Array(EncodeAll(texts, TextDoc)))]
    case Spectrum(ss) => [Label("k", Ascii("spectrum")), Member(Ascii("s"), Array(EncodeAll(ss, DescribedDocs(d))))]
  }

  function ValueDoc(v: CapabilityValue, d: Doubles): Value { MakeObject(ValueMembers(v, d)) }

  /** Which of the names a text is; their number if none. */
  function IndexOf(names: seq<string>, t: Text): (i: nat)
    ensures i <= |names|
  {
    if names == [] || t == Ascii(names[0]) then 0 else 1 + IndexOf(names[1..], t)
  }

  /** read_canonical; the kinds are told apart by name, listed in alphabetical order. */
  function DecodeValue(v: Value, d: Doubles): Result<CapabilityValue> {
    if !v.Object? then Err(Malformed)
    else
      var kind :- GetText(v, Ascii("k"));
      match IndexOf(KIND_NAMES, kind)
      case 0 =>
        var flag :- GetBoolean(v, Ascii("b"));
        Ok(BooleanValue(flag))
      case 1 =>
        var count :- GetUnsigned(v, Ascii("i"));
        Ok(CountValue(count))
      case 2 =>
        var code :- GetAtMost(v, Ascii("i"), 255);
        Ok(EnumValue(code))
      case 3 =>
        var es :- GetArray(v, Ascii("s"));
        var values :- DecodeAll(es, NumberFrom);
        Ok(MakeEnumSet(values))
      case 4 => Ok(NoValue)
      case 5 =>
        var x :- GetFinite(v, Ascii("r"), d);
        Ok(RealValue(x))
      case 6 =>
        var es :- GetArray(v, Ascii("s"));
        var values :- DecodeAll(es, DescribedFrom(d));
        Ok(MakeSpectrum(values))
      case 7 =>
        var text :- GetText(v, Ascii("t"));
        Ok(TextValue(text))
      case 8 =>
        var es :- GetArray(v, Ascii("s"));
        var values :- DecodeAll(es, TextFrom);
        Ok(MakeTextSet(values))
      case _ => Err(Malformed)
  }

  /** Integers are 64 bits wide, numbers are doubles, and sets are as their constructors leave them. */
  ghost predicate ValueTyped(v: CapabilityValue, d: Doubles) {
    match v
    case CountValue(count) => Storable(count)
    case EnumValue(enumerator) => Storable(enumerator)
    case RealValue(x) => Exact(d, x)
    case EnumSet(es) => StrictlySorted(es, IntLess) && forall e :: e in es ==> Storable(e)
    case TextSet(texts) => StrictlySorted(texts, TextLess)
    case Spectrum(ss) => StrictlySorted(ss, DescriptorLess) && forall s :: s in ss ==> DescribedTyped(s, d)
    case _ => true
  }

  /** What the reader demands beyond the types; the operands of a rule are not checked for it. */
  predicate ValueRanges(v: CapabilityValue) {
    match v
    case CountValue(count) => count >= 0
    case EnumValue(enumerator) => 0 <= enumerator <= 255
    case Spectrum(ss) => forall s :: s in ss ==> DescribedRanges(s)
    case _ => true
  }

  predicate ValueTexts(v: CapabilityValue) {
    match v
    case TextValue(text) => Utf8.Valid(text)
    case TextSet(texts) => forall t :: t in texts ==> Utf8.Valid(t)
    case Spectrum(ss) => forall s :: s in ss ==> DescribedTexts(s)
    case _ => true
  }

  lemma ValueKeys(v: CapabilityValue, d: Doubles)
    ensures Named(ValueMembers(v, d))
  {
    hide Cast, Ascii, Alphabetical, EncodeAll, DescribedDocs;
    var ms := ValueMembers(v, d);
    match v
    case NoValue => NoneNames(); NamedInOrder(ms, NONE_NAMES, NONE_SPLITS);
    case BooleanValue(_) => FlagNames(); NamedInOrder(ms, FLAG_NAMES, FLAG_SPLITS);
    case CountValue(_) => CountNames(); NamedInOrder(ms, COUNT_NAMES, COUNT_SPLITS);
    case EnumValue(_) => CountNames(); NamedInOrder(ms, COUNT_NAMES, COUNT_SPLITS);
    case RealValue(_) => NumberNames(); NamedInOrder(ms, NUMBER_NAMES, NUMBER_SPLITS);
    case TextValue(_) => LabelNames(); NamedInOrder(ms, LABEL_NAMES, LABEL_SPLITS);
    case _ => SetNames(); NamedInOrder(ms, SET_NAMES, SET_SPLITS);
  }

  lemma {:induction false} IndexOfName(names: seq<string>, splits: seq<nat>, i: nat)
    requires Alphabetical(names, splits) && i < |names|
    ensures IndexOf(names, Ascii(names[i])) == i
  {
    hide TextLess, Precedes, Ascii;
    if i > 0 {
      NamesAscend(names, splits, 0, i);
      TextLessTotal(Ascii(names[0]), Ascii(names[i]));
      TailAlphabetical(names, splits);
      IndexOfName(names[1..], splits[1..], i - 1);
    }
  }

  lemma TailAlphabetical(names: seq<string>, splits: seq<nat>)
    requires Alphabetical(names, splits) && |names| >= 2
    ensures Alphabetical(names[1..], splits[1..])
  {
    hide Precedes;
    assert names[1] != "" by { PrecedesLess(names[0], names[1], splits[0]); }
  }

  lemma KindIndex(v: CapabilityValue, i: nat)
    requires i < |KIND_NAMES| && KIND_NAMES[i] == KindName(v)
    ensures IndexOf(KIND_NAMES, Ascii(KindName(v))) == i
  {
    hide Alphabetical, Ascii, IndexOf;
    KindNames();
    IndexOfName(KIND_NAMES, KIND_SPLITS, i);
  }

  lemma {:induction false} UniqueStays<T>(s: seq<T>)
    requires forall i :: 0 < i < |s| ==> s[i - 1] != s[i]
    ensures Unique(s) == s
  {
    if |s| > 1 {
      assert s[0] != s[1];
      forall i | 0 < i < |s[1..]| ensures s[1..][i - 1] != s[1..][i] {
        assert s[i] != s[i + 1];
      }
      UniqueStays(s[1..]);
    }
  }

  /** Building a set from its own members gives the same set. */
  lemma SetStays<T(!new)>(s: seq<T>, less: (T, T) -> bool)
    requires Asymmetric(less) && StrictlySorted(s, less)
    ensures CanonicalSet(s, less) == s
  {
    SortIdentity(s, less);
    UniqueStays(s);
  }

  lemma TextsRead(texts: seq<Text>)
    ensures DecodeAll(EncodeAll(texts, TextDoc), TextFrom) == Ok(texts)
  {
    hide DecodeAll, EncodeAll;
    AllRead(texts, TextDoc, TextFrom, (t: Text) => true);
  }

  lemma NumbersRead(es: seq<int>)
    requires forall e :: e in es ==> Storable(e)
    ensures DecodeAll(EncodeAll(es, NumberDoc), NumberFrom) == Ok(es)
  {
    hide DecodeAll, EncodeAll, Cast;
    forall e | e in es ensures NumberFrom(NumberDoc(e)) == Ok(e) {
      CastExact(e);
    }
    AllRead(es, NumberDoc, NumberFrom, (e: int) => true);
  }

  lemma SpectrumRead(ss: seq<SpectrumDescriptor>, d: Doubles)
    requires forall s :: s in ss ==> DescribedTyped(s, d)
    ensures (forall s :: s in ss ==> DescribedRanges(s)) ==>
            DecodeAll(EncodeAll(ss, DescribedDocs(d)), DescribedFrom(d)) == Ok(ss)
    ensures (exists s :: s in ss && !DescribedRanges(s)) ==>
            DecodeAll(EncodeAll(ss, DescribedDocs(d)), DescribedFrom(d)).Err?
  {
    hide DecodeAll, EncodeAll, DescribedTyped, DescribedRanges, DescribedMembers, DecodeDescribed;
    forall s | s in ss
      ensures DescribedRanges(s) ==> DescribedFrom(d)(DescribedDocs(d)(s)) == Ok(s)
      ensures !DescribedRanges(s) ==> DescribedFrom(d)(DescribedDocs(d)(s)).Err?
    {
      DescribedRead(s, d);
    }
    AllRead(ss, DescribedDocs(d), DescribedFrom(d), DescribedRanges);
  }

  lemma ValueKind(v: CapabilityValue, d: Doubles, at: nat, i: nat)
    requires at < |ValueMembers(v, d)| && ValueMembers(v, d)[at] == Label("k", Ascii(KindName(v)))
    requires i < |KIND_NAMES| && KIND_NAMES[i] == KindName(v)
    ensures ValueDoc(v, d).Object?
    ensures GetText(ValueDoc(v, d), Ascii("k")) == Ok(Ascii(KindName(v)))
            && IndexOf(KIND_NAMES, Ascii(KindName(v))) == i
  {
    hide MakeObject, Named, GetText, Ascii, Label, IndexOf, ValueMembers;
    ValueKeys(v, d);
    MadeIsObject(ValueMembers(v, d));
    LabelRead(ValueMembers(v, d), at, "k", Ascii(KindName(v)));
    KindIndex(v, i);
  }

  lemma ScalarValueRead(v: CapabilityValue, d: Doubles)
    requires ValueTyped(v, d) && !v.EnumSet? && !v.TextSet? && !v.Spectrum?
    ensures ValueRanges(v) ==> DecodeValue(ValueDoc(v, d), d) == Ok(v)
    ensures !ValueRanges(v) ==> DecodeValue(ValueDoc(v, d), d).Err?
  {
    hide MakeObject, Named, GetText, GetInteger, GetFinite, GetBoolean, Ascii, Label, Counter, Flag, Number, IndexOf,
         Exact;
    var ms := ValueMembers(v, d);
    ValueKeys(v, d);
    match v
    case NoValue => ValueKind(v, d, 0, 4);
    case BooleanValue(flag) => ValueKind(v, d, 1, 0); FlagRead(ms, 0, "b", flag);
    case CountValue(count) => ValueKind(v, d, 1, 1); SignedRead(ms, 0, "i", count);
    case EnumValue(enumerator) => ValueKind(v, d, 1, 2); SignedRead(ms, 0, "i", enumerator);
    case RealValue(x) => ValueKind(v, d, 0, 5); NumberRead(ms, 1, "r", x, d);
    case TextValue(text) => ValueKind(v, d, 0, 7); LabelRead(ms, 1, "t", text);
  }

  lemma SetValueRead(v: CapabilityValue, d: Doubles)
    requires ValueTyped(v, d) && (v.EnumSet? || v.TextSet? || v.Spectrum?)
    ensures ValueRanges(v) ==> DecodeValue(ValueDoc(v, d), d) == Ok(v)
    ensures !ValueRanges(v) ==> DecodeValue(ValueDoc(v, d), d).Err?
  {
    hide MakeObject, Named, GetText, GetArray, Ascii, Label, IndexOf, DecodeAll, EncodeAll, CanonicalSet, TextLess,
         DescriptorLess, DescribedRanges, DescribedTyped;
    var ms := ValueMembers(v, d);
    ValueKeys(v, d);
    SetOrders();
    match v
    case EnumSet(es) =>
      ValueKind(v, d, 0, 3);
      ListRead(ms, 1, "s", EncodeAll(es, NumberDoc));
      NumbersRead(es);
      SetStays(es, IntLess);
    case TextSet(texts) =>
      ValueKind(v, d, 0, 8);
      ListRead(ms, 1, "s", EncodeAll(texts, TextDoc));
      TextsRead(texts);
      SetStays(texts, TextLess);
    case Spectrum(ss) =>
      ValueKind(v, d, 0, 6);
      ListRead(ms, 1, "s", EncodeAll(ss, DescribedDocs(d)));
      SpectrumRead(ss, d);
      SetStays(ss, DescriptorLess);
  }

  lemma SetOrders()
    ensures Asymmetric(IntLess) && Asymmetric(TextLess) && Asymmetric(DescriptorLess)
  {
    forall a: Text, b: Text ensures TextLess(a, b) ==> !TextLess(b, a) {
      TextLessTotal(a, b);
    }
  }

  lemma ValueRead(v: CapabilityValue, d: Doubles)
    requires ValueTyped(v, d)
    ensures ValueRanges(v) ==> DecodeValue(ValueDoc(v, d), d) == Ok(v)
    ensures !ValueRanges(v) ==> DecodeValue(ValueDoc(v, d), d).Err?
  {
    hide ValueRanges, ValueTyped, ValueMembers, DecodeValue;
    if v.EnumSet? || v.TextSet? || v.Spectrum? {
      SetValueRead(v, d);
    } else {
      ScalarValueRead(v, d);
    }
  }

  lemma SetShape(v: CapabilityValue, d: Doubles)
    requires ValueTyped(v, d) && (v.EnumSet? || v.TextSet? || v.Spectrum?)
    ensures var es := ValueMembers(v, d)[1].value; InKeyOrder(es) && (Encodable(es) <==> ValueTexts(v))
  {
    hide EncodeAll, Utf8.Valid, DescribedTexts, DescribedTyped, DescribedMembers, StrictlySorted;
    match v
    case EnumSet(es) => AllShape(es, NumberDoc, (e: int) => true);
    case TextSet(texts) => AllShape(texts, TextDoc, (t: Text) => Utf8.Valid(t));
    case Spectrum(ss) =>
      forall s | s in ss
        ensures InKeyOrder(DescribedDocs(d)(s)) && (Encodable(DescribedDocs(d)(s)) <==> DescribedTexts(s))
      {
        DescribedShape(s, d);
      }
      AllShape(ss, DescribedDocs(d), DescribedTexts);
  }

  lemma TextShape(v: CapabilityValue, d: Doubles)
    requires v.TextValue?
    ensures InKeyOrder(ValueDoc(v, d)) && (Encodable(ValueDoc(v, d)) <==> ValueTexts(v))
  {
    hide MakeObject, Named, Utf8.Valid, Ascii;
    var ms := ValueMembers(v, d);
    ValueKeys(v, d);
    var parts := [0, 1];
    MadeShape(ms, parts);
    assert Encodable(ms[parts[0]].value) by { AsciiIsUtf8(Ascii("text")); }
    assert Encodable(ms[parts[1]].value) == Utf8.Valid(v.text);
  }

  lemma RealShape(v: CapabilityValue, d: Doubles)
    requires v.RealValue? && Exact(d, v.number)
    ensures InKeyOrder(ValueDoc(v, d)) && Encodable(ValueDoc(v, d))
  {
    hide MakeObject, Named, Utf8.Valid, Ascii, Exact, IsNaN;
    var ms := ValueMembers(v, d);
    ValueKeys(v, d);
    ExactIsNumber(d, v.number);
    var parts := [0];
    MadeShape(ms, parts);
    assert Encodable(ms[parts[0]].value) by { AsciiIsUtf8(Ascii("real")); }
  }

  lemma CollectionShape(v: CapabilityValue, d: Doubles)
    requires ValueTyped(v, d) && (v.EnumSet? || v.TextSet? || v.Spectrum?)
    ensures InKeyOrder(ValueDoc(v, d)) && (Encodable(ValueDoc(v, d)) <==> ValueTexts(v))
  {
    hide MakeObject, Named, Utf8.Valid, Ascii, EncodeAll, DescribedDocs, ValueTyped, ValueTexts;
    var ms := ValueMembers(v, d);
    ValueKeys(v, d);
    SetShape(v, d);
    var parts := [0, 1];
    MadeShape(ms, parts);
    assert Encodable(ms[parts[0]].value) by { AsciiIsUtf8(Ascii(KindName(v))); }
    assert ms[parts[1]] == ms[1];
  }

  lemma PlainValueShape(v: CapabilityValue, d: Doubles)
    requires v.NoValue? || v.BooleanValue? || v.CountValue? || v.EnumValue?
    ensures InKeyOrder(ValueDoc(v, d)) && Encodable(ValueDoc(v, d))
  {
    hide MakeObject, Named, Utf8.Valid, Ascii, Cast;
    var ms := ValueMembers(v, d);
    ValueKeys(v, d);
    var parts := [|ms| - 1];
    MadeShape(ms, parts);
    assert Encodable(ms[parts[0]].value) by { AsciiIsUtf8(Ascii(KindName(v))); }
  }

  lemma ValueShape(v: CapabilityValue, d: Doubles)
    requires ValueTyped(v, d)
    ensures InKeyOrder(ValueDoc(v, d)) && (Encodable(ValueDoc(v, d)) <==> ValueTexts(v))
  {
    hide ValueDoc, Exact;
    if v.EnumSet? || v.TextSet? || v.Spectrum? {
      hide ValueTyped, ValueTexts;
      CollectionShape(v, d);
    } else if v.TextValue? {
      TextShape(v, d);
    } else if v.RealValue? {
      RealShape(v, d);
    } else {
      PlainValueShape(v, d);
    }
  }

  // ----- Declarations -----

  const LAST_CAPABILITY := 24

  /** validate_key_text: printable ASCII without spaces, at most 128 bytes. */
  predicate IsKeyText(t: Text) { t != [] && |t| <= 128 && forall i :: 0 <= i < |t| ==> 0x21 <= t[i] <= 0x7E }

  /** get_key: an empty text is the empty key. */
  function KeyFrom(t: Text): Result<Text> { if t == [] || IsKeyText(t) then Ok(t) else Err(InvalidArgument) }

  function DeclarationMembers(c: Declaration, d: Doubles): seq<Member> {
    [Wide("clock_domain", 0), Counter("generation", c.generation), Counter("incarnation", c.incarnation),
     Counter("key", c.attr), Flag("live", c.live), Counter("module", c.moduleUid), Flag("module_subject", c.port == []),
     Counter("observed_at_wall_ns", c.wallNs), Label("port", c.port),
     Member(Ascii("provenance"), ProvenanceDoc(c.provenance)), Counter("sequence", c.sequence),
     Counter("source", c.source), Counter("source_epoch", c.epoch), Label("subkey", c.subkey),
     Member(Ascii("value"), ValueDoc(c.value, d))]
  }

  function DeclarationDoc(c: Declaration, d: Doubles): Value { MakeObject(DeclarationMembers(c, d)) }

  function DecodeDeclaration(v: Value, d: Doubles): Result<Declaration> {
    var attr :- GetAtMost(v, Ascii("key"), LAST_CAPABILITY);
    var subkey :- GetText(v, Ascii("subkey"));
    var content :- GetField(v, Ascii("value"));
    var value :- DecodeValue(content, d);
    var source :- GetAtMost(v, Ascii("source"), MAX_U32);
    var epoch :- GetAtMost(v, Ascii("source_epoch"), MAX_U32);
    var uid :- GetUnsigned(v, Ascii("module"));
    var incarnation :- GetAtMost(v, Ascii("incarnation"), MAX_U32);
    var portText :- GetText(v, Ascii("port"));
    var port :- KeyFrom(portText);
    var _ :- GetBoolean(v, Ascii("module_subject"));
    var generation :- GetUnsigned(v, Ascii("generation"));
    var sequence :- GetUnsigned(v, Ascii("sequence"));
    var wallNs :- GetInteger(v, Ascii("observed_at_wall_ns"));
    var _ :- GetUnsignedField(v, Ascii("clock_domain"));
    var field :- GetField(v, Ascii("provenance"));
    var provenance :- DecodeProvenance(field);
    var live :- GetBoolean(v, Ascii("live"));
    Ok(Claim(attr, subkey, value, source, epoch, uid, incarnation, port, generation, sequence, wallNs, provenance,
             live))
  }

  ghost predicate DeclarationTyped(c: Declaration, d: Doubles) {
    && c.attr <= LAST_CAPABILITY && (c.port == [] || IsKeyText(c.port)) && Word(c.moduleUid)
    && c.incarnation <= MAX_U32 && c.source <= MAX_U32 && c.epoch <= MAX_U32
    && Word(c.generation) && Word(c.sequence) && Storable(c.wallNs) && ValueTyped(c.value, d)
  }

  predicate DeclarationRanges(c: Declaration) { ValueRanges(c.value) }

  predicate DeclarationTexts(c: Declaration) {
    Utf8.Valid(c.subkey) && ValueTexts(c.value) && ProvenanceTexts(c.provenance)
  }

  lemma DeclarationKeys(c: Declaration, d: Doubles)
    ensures Named(DeclarationMembers(c, d))
  {
    hide Cast, Ascii, Alphabetical, MakeObject, ValueMembers, ProvenanceMembers;
    DeclarationNames();
    NamedInOrder(DeclarationMembers(c, d), DECLARATION_NAMES, DECLARATION_SPLITS);
  }

  lemma DeclarationStamp(c: Declaration, d: Doubles)
    requires DeclarationTyped(c, d)
    ensures var v := DeclarationDoc(c, d);
      && GetUnsigned(v, Ascii("generation")) == Ok(c.generation)
      && GetAtMost(v, Ascii("incarnation"), MAX_U32) == Ok(c.incarnation) && GetBoolean(v, Ascii("live")) == Ok(c.live)
      && GetUnsigned(v, Ascii("module")) == Ok(c.moduleUid) && GetUnsigned(v, Ascii("sequence")) == Ok(c.sequence)
      && GetAtMost(v, Ascii("source"), MAX_U32) == Ok(c.source)
      && GetAtMost(v, Ascii("source_epoch"), MAX_U32) == Ok(c.epoch)
  {
    hide MakeObject, Named, GetText, GetAtMost, GetUnsigned, GetUnsignedField, GetInteger, GetBoolean, FieldOf, Cast,
         Ascii, Counter, Label, Flag, Wide, DecodeProvenance, ProvenanceMembers, DecodeValue, ValueMembers, ValueTyped,
         ValueRanges, IsKeyText;
    var ms := DeclarationMembers(c, d);
    DeclarationKeys(c, d);
    CounterRead(ms, 1, "generation", c.generation, 0);
    BoundedRead(ms, 2, "incarnation", c.incarnation, MAX_U32);
    FlagRead(ms, 4, "live", c.live);
    CounterRead(ms, 5, "module", c.moduleUid, 0);
    CounterRead(ms, 10, "sequence", c.sequence, 0);
    BoundedRead(ms, 11, "source", c.source, MAX_U32);
    BoundedRead(ms, 12, "source_epoch", c.epoch, MAX_U32);
  }

  lemma DeclarationRead(c: Declaration, d: Doubles)
    requires DeclarationTyped(c, d)
    ensures DeclarationRanges(c) ==> DecodeDeclaration(DeclarationDoc(c, d), d) == Ok(c)
    ensures !DeclarationRanges(c) ==> DecodeDeclaration(DeclarationDoc(c, d), d).Err?
  {
    hide MakeObject, Named, GetText, GetAtMost, GetUnsigned, GetUnsignedField, GetInteger, GetBoolean, FieldOf, Cast,
         Ascii, Counter, Label, Flag, Wide, DecodeProvenance, ProvenanceMembers, DecodeValue, ValueMembers, ValueTyped,
         ValueRanges, IsKeyText;
    var ms := DeclarationMembers(c, d);
    DeclarationKeys(c, d);
    DeclarationStamp(c, d);
    ProvenanceRead(c.provenance);
    ValueRead(c.value, d);
    WideRead(ms, 0, "clock_domain", 0);
    BoundedRead(ms, 3, "key", c.attr, LAST_CAPABILITY);
    FlagRead(ms, 6, "module_subject", c.port == []);
    SignedRead(ms, 7, "observed_at_wall_ns", c.wallNs);
    LabelRead(ms, 8, "port", c.port);
    PartRead(ms, 9, "provenance", ProvenanceDoc(c.provenance));
    LabelRead(ms, 13, "subkey", c.subkey);
    PartRead(ms, 14, "value", ValueDoc(c.value, d));
  }

  lemma KeyIsUtf8(t: Text)
    requires t == [] || IsKeyText(t)
    ensures Utf8.Valid(t)
  {
    AsciiIsUtf8(t);
  }

  lemma DeclarationShape(c: Declaration, d: Doubles)
    requires DeclarationTyped(c, d)
    ensures InKeyOrder(DeclarationDoc(c, d)) && (Encodable(DeclarationDoc(c, d)) <==> DeclarationTexts(c))
  {
    hide MakeObject, Named, Utf8.Valid, Ascii, Cast, ProvenanceTexts, ProvenanceMembers, ValueTexts, ValueTyped,
         ValueMembers, IsKeyText;
    var ms := DeclarationMembers(c, d);
    DeclarationKeys(c, d);
    var parts := [8, 9, 13, 14];
    MadeShape(ms, parts);
    KeyIsUtf8(c.port);
    ProvenanceShape(c.provenance);
    ValueShape(c.value, d);
    assert Encodable(ms[parts[0]].value) && Encodable(ms[parts[1]].value) == ProvenanceTexts(c.provenance);
    assert Encodable(ms[parts[2]].value) == Utf8.Valid(c.subkey)
      && Encodable(ms[parts[3]].value) == ValueTexts(c.value);
  }

  // ----- Samples -----

  function PresenceCode(p: Presence): nat {
    match p
    case Present => 0
    case NotAvailable => 1
    case ReadError => 2
    case NotSupported => 3
  }

  function PresenceFrom(code: nat): Presence {
    if code == 0 then Present else if code == 1 then NotAvailable else if code == 2 then ReadError else NotSupported
  }

  function SampleMembers(s: HealthSample, d: Doubles): seq<Member> {
    [Wide("clock_domain", s.clockDomain), Counter("generation", s.generation), Counter("incarnation", s.incarnation),
     Counter("lane", s.lane), Flag("live", s.live), Counter("metric", MetricCode(s.metric)),
     Counter("module", s.moduleUid), Counter("observed_at_monotonic_ns", s.monotonicNs),
     Counter("observed_at_wall_ns", s.wallNs), Counter("presence", PresenceCode(s.presence)),
     Member(Ascii("provenance"), ProvenanceDoc(s.provenance)), Counter("sequence", s.sequence),
     Counter("source", s.source), Counter("source_epoch", s.epoch), Number("value", s.value, d)]
  }

  function SampleDoc(s: HealthSample, d: Doubles): Value { MakeObject(SampleMembers(s, d)) }

  function DecodeSample(v: Value, d: Doubles): Result<HealthSample> {
    var metric :- GetAtMost(v, Ascii("metric"), 7);
    var lane :- GetAtMost(v, Ascii("lane"), MAX_U16);
    var presence :- GetAtMost(v, Ascii("presence"), 3);
    var value :- GetFinite(v, Ascii("value"), d);
    var wallNs :- GetInteger(v, Ascii("observed_at_wall_ns"));
    var monotonicNs :- GetUnsigned(v, Ascii("observed_at_monotonic_ns"));
    var domain :- GetUnsignedField(v, Ascii("clock_domain"));
    var field :- GetField(v, Ascii("provenance"));
    var provenance :- DecodeProvenance(field);
    var source :- GetAtMost(v, Ascii("source"), MAX_U32);
    var epoch :- GetAtMost(v, Ascii("source_epoch"), MAX_U32);
    var uid :- GetUnsigned(v, Ascii("module"));
    var incarnation :- GetAtMost(v, Ascii("incarnation"), MAX_U32);
    var generation :- GetUnsigned(v, Ascii("generation"));
    var sequence :- GetUnsigned(v, Ascii("sequence"));
    var live :- GetBoolean(v, Ascii("live"));
    if lane > MAX_U16 then Err(Malformed)
    else Ok(HealthSample(MetricOf(metric), lane, PresenceFrom(presence), value, wallNs, monotonicNs, domain, source,
                         epoch, uid, incarnation, generation, sequence, provenance, live))
  }

  predicate SampleTyped(s: HealthSample, d: Doubles) {
    && Exact(d, s.value) && s.clockDomain <= MOST && s.monotonicNs <= MOST && Storable(s.wallNs) && Word(s.moduleUid)
    && s.incarnation <= MAX_U32 && s.source <= MAX_U32 && s.epoch <= MAX_U32
    && Word(s.generation) && Word(s.sequence)
  }

  /** The monotonic reading is the caller's own and written as a signed integer. */
  predicate SampleRanges(s: HealthSample) { Storable(s.monotonicNs) }

  predicate SampleTexts(s: HealthSample) { ProvenanceTexts(s.provenance) }

  lemma SampleKeys(s: HealthSample, d: Doubles)
    ensures Named(SampleMembers(s, d))
  {
    hide Cast, Ascii, Alphabetical, MakeObject, ProvenanceMembers;
    SampleNames();
    NamedInOrder(SampleMembers(s, d), SAMPLE_NAMES, SAMPLE_SPLITS);
  }

  lemma MetricCodes(metric: Metric)
    ensures MetricCode(metric) <= 7 && MetricOf(MetricCode(metric)) == metric
  {
  }

  lemma PresenceCodes(p: Presence)
    ensures PresenceCode(p) <= 3 && PresenceFrom(PresenceCode(p)) == p
  {
  }

  lemma SampleStamp(s: HealthSample, d: Doubles)
    requires SampleTyped(s, d)
    ensures var v := SampleDoc(s, d);
      && GetUnsigned(v, Ascii("generation")) == Ok(s.generation)
      && GetAtMost(v, Ascii("incarnation"), MAX_U32) == Ok(s.incarnation) && GetBoolean(v, Ascii("live")) == Ok(s.live)
      && GetUnsigned(v, Ascii("module")) == Ok(s.moduleUid) && GetUnsigned(v, Ascii("sequence")) == Ok(s.sequence)
      && GetAtMost(v, Ascii("source"), MAX_U32) == Ok(s.source)
      && GetAtMost(v, Ascii("source_epoch"), MAX_U32) == Ok(s.epoch)
  {
    hide MakeObject, Named, GetText, GetAtMost, GetUnsigned, GetUnsignedField, GetInteger, GetBoolean, GetFinite,
         FieldOf, Cast, Ascii, Counter, Label, Flag, Number, Wide, DecodeProvenance, ProvenanceMembers, Exact,
         MetricCode, MetricOf, PresenceCode, PresenceFrom;
    var ms := SampleMembers(s, d);
    SampleKeys(s, d);
    CounterRead(ms, 1, "generation", s.generation, 0);
    BoundedRead(ms, 2, "incarnation", s.incarnation, MAX_U32);
    FlagRead(ms, 4, "live", s.live);
    CounterRead(ms, 6, "module", s.moduleUid, 0);
    CounterRead(ms, 11, "sequence", s.sequence, 0);
    BoundedRead(ms, 12, "source", s.source, MAX_U32);
    BoundedRead(ms, 13, "source_epoch", s.epoch, MAX_U32);
  }

  lemma SampleRead(s: HealthSample, d: Doubles)
    requires SampleTyped(s, d)
    ensures SampleRanges(s) ==> DecodeSample(SampleDoc(s, d), d) == Ok(s)
    ensures !SampleRanges(s) ==> DecodeSample(SampleDoc(s, d), d).Err?
  {
    hide MakeObject, Named, GetText, GetAtMost, GetUnsigned, GetUnsignedField, GetInteger, GetBoolean, GetFinite,
         FieldOf, Cast, Ascii, Counter, Label, Flag, Number, Wide, DecodeProvenance, ProvenanceMembers, Exact,
         MetricCode, MetricOf, PresenceCode, PresenceFrom;
    var ms := SampleMembers(s, d);
    SampleKeys(s, d);
    SampleStamp(s, d);
    MetricCodes(s.metric);
    PresenceCodes(s.presence);
    ProvenanceRead(s.provenance);
    WideRead(ms, 0, "clock_domain", s.clockDomain);
    BoundedRead(ms, 3, "lane", s.lane, MAX_U16);
    BoundedRead(ms, 5, "metric", MetricCode(s.metric), 7);
    CounterRead(ms, 7, "observed_at_monotonic_ns", s.monotonicNs, 0);
    SignedRead(ms, 8, "observed_at_wall_ns", s.wallNs);
    BoundedRead(ms, 9, "presence", PresenceCode(s.presence), 3);
    PartRead(ms, 10, "provenance", ProvenanceDoc(s.provenance));
    NumberRead(ms, 14, "value", s.value, d);
  }

  lemma SampleShape(s: HealthSample, d: Doubles)
    requires SampleTyped(s, d)
    ensures InKeyOrder(SampleDoc(s, d)) && (Encodable(SampleDoc(s, d)) <==> SampleTexts(s))
  {
    hide MakeObject, Named, Utf8.Valid, Ascii, Cast, ProvenanceTexts, ProvenanceMembers, Exact, IsNaN;
    var ms := SampleMembers(s, d);
    SampleKeys(s, d);
    ExactIsNumber(d, s.value);
    var parts := [10];
    MadeShape(ms, parts);
    ProvenanceShape(s.provenance);
    assert Encodable(ms[parts[0]].value) == ProvenanceTexts(s.provenance);
  }

  // ----- Latches -----

  function MetricStateCode(s: MetricState): nat {
    match s
    case UnknownState => 0
    case OkState => 1
    case DegradedState => 2
    case CriticalState => 3
    case StaleState => 4
    case ConflictingState => 5
    case UnclassifiedState => 6
    case FencedState => 7
  }

  function MetricStateFrom(code: nat): MetricState {
    if code == 0 then UnknownState else if code == 1 then OkState else if code == 2 then DegradedState
    else if code == 3 then CriticalState else if code == 4 then StaleState else if code == 5 then ConflictingState
    else if code == 6 then UnclassifiedState else FencedState
  }

  function LatchMembers(t: Latch): seq<Member> {
    [Counter("consecutive", t.consecutive), Counter("last_sample_sequence", t.lastSampleSequence),
     Counter("last_sample_wall_ns", t.lastSampleWallNs),
     Counter("last_transition_generation", t.lastTransitionGeneration),
     Counter("last_transition_wall_ns", t.lastTransitionWallNs), Counter("state", MetricStateCode(t.state))]
  }

  function DecodeLatch(v: Value): Result<Latch> {
    var state :- GetAtMost(v, Ascii("state"), 7);
    var consecutive :- GetAtMost(v, Ascii("consecutive"), MAX_U32);
    var sampleWallNs :- GetInteger(v, Ascii("last_sample_wall_ns"));
    var sampleSequence :- GetUnsigned(v, Ascii("last_sample_sequence"));
    var generation :- GetUnsigned(v, Ascii("last_transition_generation"));
    var wallNs :- GetInteger(v, Ascii("last_transition_wall_ns"));
    Ok(Latch(MetricStateFrom(state), consecutive, sampleWallNs, sampleSequence, generation, wallNs))
  }

  predicate LatchTyped(t: Latch) {
    && t.consecutive <= MAX_U32 && Storable(t.lastSampleWallNs) && Word(t.lastSampleSequence)
    && Word(t.lastTransitionGeneration) && Storable(t.lastTransitionWallNs)
  }

  lemma LatchRead(t: Latch)
    requires LatchTyped(t)
    ensures DecodeLatch(MakeObject(LatchMembers(t))) == Ok(t)
    ensures InKeyOrder(MakeObject(LatchMembers(t))) && Encodable(MakeObject(LatchMembers(t)))
  {
    hide MakeObject, Named, GetAtMost, GetUnsigned, GetInteger, Cast, Ascii, Alphabetical;
    var ms := LatchMembers(t);
    LatchNames();
    NamedInOrder(ms, LATCH_NAMES, LATCH_SPLITS);
    MadeShape(ms, []);
    BoundedRead(ms, 0, "consecutive", t.consecutive, MAX_U32);
    CounterRead(ms, 1, "last_sample_sequence", t.lastSampleSequence, 0);
    SignedRead(ms, 2, "last_sample_wall_ns", t.lastSampleWallNs);
    CounterRead(ms, 3, "last_transition_generation", t.lastTransitionGeneration, 0);
    SignedRead(ms, 4, "last_transition_wall_ns", t.lastTransitionWallNs);
    BoundedRead(ms, 5, "state", MetricStateCode(t.state), 7);
  }

  /** encode_latch_record. */
  function SeriesMembers(r: LatchRecord): seq<Member> {
    [Counter("lane", r.lane), Member(Ascii("latch"), MakeObject(LatchMembers(r.latch))),
     Counter("metric", MetricCode(r.metric))]
  }

  function SeriesDoc(r: LatchRecord): Value { MakeObject(SeriesMembers(r)) }

  /** decode_latch_record. */
  function DecodeSeries(v: Value): Result<LatchRecord> {
    var metric :- GetAtMost(v, Ascii("metric"), 7);
    var lane :- GetUnsigned(v, Ascii("lane"));
    if lane > MAX_U16 then Err(Malformed)
    else
      var field :- GetField(v, Ascii("latch"));
      var latch :- DecodeLatch(field);
      Ok(LatchRecord(MetricOf(metric), lane, latch))
  }

  lemma SeriesRead(r: LatchRecord)
    requires LatchTyped(r.latch)
    ensures DecodeSeries(SeriesDoc(r)) == Ok(r) && InKeyOrder(SeriesDoc(r)) && Encodable(SeriesDoc(r))
  {
    hide MakeObject, Named, GetAtMost, GetUnsigned, GetInteger, FieldOf, Cast, Ascii, Counter, Alphabetical,
         DecodeLatch, LatchMembers, LatchTyped, MetricCode, MetricOf;
    var ms := SeriesMembers(r);
    LatchEntryNames();
    SeriesKeys(r);
    LatchRead(r.latch);
    MetricCodes(r.metric);
    CounterRead(ms, 0, "lane", r.lane, 0);
    PartRead(ms, 1, "latch", MakeObject(LatchMembers(r.latch)));
    BoundedRead(ms, 2, "metric", MetricCode(r.metric), 7);
    SeriesShape(r);
  }

  lemma SeriesKeys(r: LatchRecord)
    ensures Named(SeriesMembers(r))
  {
    hide Cast, Ascii, Alphabetical, MakeObject, LatchMembers;
    LatchEntryNames();
    NamedInOrder(SeriesMembers(r), LATCH_ENTRY_NAMES, LATCH_ENTRY_SPLITS);
  }

  lemma SeriesShape(r: LatchRecord)
    requires LatchTyped(r.latch)
    ensures InKeyOrder(SeriesDoc(r)) && Encodable(SeriesDoc(r))
  {
    hide MakeObject, Named, Cast, Ascii, LatchMembers;
    var ms := SeriesMembers(r);
    SeriesKeys(r);
    var parts := [1];
    MadeShape(ms, parts);
    LatchRead(r.latch);
    assert ms[parts[0]].value == MakeObject(LatchMembers(r.latch));
  }
}
