/** Every record of a snapshot as a document, field by field: src/snapshot.cpp:177-479 and src/codec.cpp:255-277. */
module RecordDocuments {
  import opened Bytes
  import Utf8
  import opened Canonical
  import opened ObjectValue
  import opened FieldNames
  import opened Documents
  import opened Lifecycle
  import opened Health
  import opened HealthReport
  import opened Samples
  import opened RegistryState
  import opened SnapshotState
  import opened EvidenceDocuments
  import opened TableDocuments

  /** EvidenceKind runs from 0 to 2; the model keeps no declared kind and writes 0. */
  const LAST_EVIDENCE_KIND := 2

  // ----- The state header -----

  function HeaderMembers(h: StateHeader): seq<Member> {
    [Counter("conflicts_observed", 0), Counter("dropped_samples", h.droppedSamples),
     Counter("generation", h.generation), Counter("mutations", h.mutations),
     Counter("next_module_uid", h.nextModuleUid), Counter("next_rule_id", h.nextRuleId),
     Counter("next_sequence", h.nextSequence), Counter("next_source_id", h.nextSourceId),
     Counter("registry_incarnation", h.registryIncarnation)]
  }

  /** decode_state_header. */
  function DecodeHeader(v: Value): Result<StateHeader> {
    if !v.Object? then Err(Malformed)
    else
      var incarnation :- GetUnsigned(v, Ascii("registry_incarnation"));
      if incarnation == 0 || incarnation > MAX_U32 then Err(Malformed)
      else Ok(StateHeader(UnsignedOr(v, Ascii("generation"), 0), incarnation,
                          UnsignedOr(v, Ascii("next_module_uid"), 1), UnsignedOr(v, Ascii("next_rule_id"), 1),
                          UnsignedOr(v, Ascii("next_source_id"), 1), UnsignedOr(v, Ascii("next_sequence"), 1),
                          UnsignedOr(v, Ascii("mutations"), 0), UnsignedOr(v, Ascii("dropped_samples"), 0)))
  }

  /** Signed 64-bit storage holds every counter, and the registry incarnation is in its range. */
  predicate HeaderStorable(h: StateHeader) {
    && Storable(h.generation) && Storable(h.nextModuleUid) && Storable(h.nextRuleId) && Storable(h.nextSourceId)
    && Storable(h.nextSequence) && Storable(h.mutations) && Storable(h.droppedSamples)
    && 1 <= h.registryIncarnation <= MAX_U32
  }

  lemma HeaderKeys(h: StateHeader)
    ensures Named(HeaderMembers(h))
  {
    hide Cast, Ascii, Alphabetical;
    HeaderNames();
    NamedInOrder(HeaderMembers(h), HEADER_NAMES, HEADER_SPLITS);
  }

  lemma HeaderSmall(h: StateHeader)
    ensures SmallMembers(HeaderMembers(h), 0, 11)
  {
    hide Cast, Fits, Emit, KeyFits, Ascii;
    SmallNumber("conflicts_observed", Cast(0), 1);
    SmallNumber("dropped_samples", Cast(h.droppedSamples), 1);
    SmallNumber("generation", Cast(h.generation), 1);
    SmallNumber("mutations", Cast(h.mutations), 1);
    SmallNumber("next_module_uid", Cast(h.nextModuleUid), 1);
    SmallNumber("next_rule_id", Cast(h.nextRuleId), 1);
    SmallNumber("next_sequence", Cast(h.nextSequence), 1);
    SmallNumber("next_source_id", Cast(h.nextSourceId), 1);
    SmallNumber("registry_incarnation", Cast(h.registryIncarnation), 1);
  }

  lemma IncarnationRead(v: Value, n: nat)
    requires GetInteger(v, Ascii("registry_incarnation")) == Ok(Cast(n))
    ensures 1 <= n <= MAX_U32 ==> GetUnsigned(v, Ascii("registry_incarnation")) == Ok(n)
    ensures GetUnsigned(v, Ascii("registry_incarnation")) == Ok(n) ==> Storable(n)
  {
    hide GetInteger, Ascii;
    CastExact(n);
  }

  /** The header record comes back exactly when every counter still fits signed storage. */
  lemma HeaderRoundTrip(h: StateHeader)
    ensures var payload := EncodeDocument(MakeObject(HeaderMembers(h)));
      && |payload| <= 0x1000
      && DecodeDocument(payload) == Ok(MakeObject(HeaderMembers(h)))
      && (DecodeHeader(MakeObject(HeaderMembers(h))) == Ok(h) <==> HeaderStorable(h))
  {
    hide MakeObject, Named, SmallMembers, EncodeDocument, DecodeDocument, UnsignedOr, GetInteger, Cast, Ascii, Counter,
         Storable;
    var ms := HeaderMembers(h);
    HeaderKeys(h);
    HeaderSmall(h);
    DocumentReadsBack(ms, 11);
    MadeIsObject(ms);
    CounterRead(ms, 1, "dropped_samples", h.droppedSamples, 0);
    CounterRead(ms, 2, "generation", h.generation, 0);
    CounterRead(ms, 3, "mutations", h.mutations, 0);
    CounterRead(ms, 4, "next_module_uid", h.nextModuleUid, 1);
    CounterRead(ms, 5, "next_rule_id", h.nextRuleId, 1);
    CounterRead(ms, 6, "next_sequence", h.nextSequence, 1);
    CounterRead(ms, 7, "next_source_id", h.nextSourceId, 1);
    CounterRead(ms, 8, "registry_incarnation", h.registryIncarnation, 1);
    IncarnationRead(MakeObject(ms), h.registryIncarnation);
  }

  // ----- Sources -----

  function DescriptorMembers(s: SourceRecord): seq<Member> {
    [Counter("declared_kind", 0), Label("description", s.description), Label("instance_id", s.instanceId),
     Label("name", s.name)]
  }

  function SourceMembers(s: SourceRecord): seq<Member> {
    [Member(Ascii("descriptor"), MakeObject(DescriptorMembers(s))), Counter("epoch", s.epoch),
     Counter("generation", s.generation), Counter("id", s.id), Label("name", s.name),
     Counter("registered_wall_ns", s.registeredWallNs), Counter("sequence", s.sequence)]
  }

  datatype Descriptor = Descriptor(name: Text, description: Text, instanceId: Text)

  /** Codec<SourceDescriptor>::decode. */
  function DecodeDescriptor(v: Value): Result<Descriptor> {
    if !v.Object? then Err(Malformed)
    else
      var name :- GetText(v, Ascii("name"));
      var description :- GetText(v, Ascii("description"));
      var kind :- GetInteger(v, Ascii("declared_kind"));
      if kind < 0 || kind > LAST_EVIDENCE_KIND then Err(Malformed)
      else
        var instanceId :- GetText(v, Ascii("instance_id"));
        Ok(Descriptor(name, description, instanceId))
  }

  /** decode_source. */
  function DecodeSource(v: Value): Result<SourceRecord> {
    if !v.Object? then Err(Malformed)
    else
      var id :- GetUnsigned(v, Ascii("id"));
      var epoch :- GetUnsigned(v, Ascii("epoch"));
      if id == 0 || id > MAX_U32 || epoch == 0 || epoch > MAX_U32 then Err(Malformed)
      else
        var name := TextOr(v, Ascii("name"), []);
        if name == [] then Err(Malformed)
        else
          var field := FieldOf(v, Ascii("descriptor"));
          var d :- if field.Some? then DecodeDescriptor(field.value) else Ok(Descriptor([], [], []));
          Ok(SourceRecord(id, name, epoch, d.instanceId, d.description, UnsignedOr(v, Ascii("generation"), 0),
                          UnsignedOr(v, Ascii("sequence"), 0), IntegerOr(v, Ascii("registered_wall_ns"), 0)))
  }

  /** What register_source lets into the table: it checks name and instance id for UTF-8, but not the description. */
  predicate RegisteredForm(s: SourceRecord) {
    && 1 <= s.id <= MAX_U32 && 1 <= s.epoch <= MAX_U32 && Storable(s.registeredWallNs)
    && s.name != [] && |s.name| <= 128 && Utf8.Valid(s.name)
    && |s.instanceId| <= 128 && Utf8.Valid(s.instanceId)
    && |s.description| <= 512
  }

  lemma DescriptorKeys(s: SourceRecord)
    ensures Named(DescriptorMembers(s))
  {
    hide Cast, Ascii, Alphabetical;
    DescriptorNames();
    NamedInOrder(DescriptorMembers(s), DESCRIPTOR_NAMES, DESCRIPTOR_SPLITS);
  }

  lemma SourceKeys(s: SourceRecord)
    ensures Named(SourceMembers(s))
  {
    hide Cast, MakeObject, Ascii, Alphabetical;
    SourceNames();
    NamedInOrder(SourceMembers(s), SOURCE_NAMES, SOURCE_SPLITS);
  }

  lemma DescriptorShape(s: SourceRecord)
    requires RegisteredForm(s)
    ensures var v := MakeObject(DescriptorMembers(s));
      InKeyOrder(v) && (Encodable(v) <==> Utf8.Valid(s.description))
  {
    hide MakeObject, Named, Utf8.Valid, Ascii, Cast;
    var ms := DescriptorMembers(s);
    DescriptorKeys(s);
    var parts := [1, 2, 3];
    MadeShape(ms, parts);
    assert Encodable(ms[parts[0]].value) == Utf8.Valid(s.description);
    assert Encodable(ms[parts[1]].value) && Encodable(ms[parts[2]].value);
  }

  lemma SourceShape(s: SourceRecord)
    requires RegisteredForm(s)
    ensures var v := MakeObject(SourceMembers(s));
      InKeyOrder(v) && (Encodable(v) <==> Utf8.Valid(s.description))
  {
    hide MakeObject, Named, Utf8.Valid, Ascii, Cast, DescriptorMembers;
    var ms := SourceMembers(s);
    SourceKeys(s);
    var parts := [0, 4];
    MadeShape(ms, parts);
    DescriptorShape(s);
    assert ms[parts[0]].value == MakeObject(DescriptorMembers(s)) && Encodable(ms[parts[1]].value);
  }

  lemma DescriptorSmall(s: SourceRecord)
    requires RegisteredForm(s) && Utf8.Valid(s.description)
    ensures SmallMembers(DescriptorMembers(s), 1, 523)
  {
    hide Cast, Fits, Emit, KeyFits, Utf8.Valid, Ascii;
    SmallNumber("declared_kind", Cast(0), 2);
    SmallLabel("description", s.description, 2);
    SmallLabel("instance_id", s.instanceId, 2);
    SmallLabel("name", s.name, 2);
  }

  lemma SmallName(name: string)
    requires 1 <= |name| <= 64
    ensures KeyFits(Ascii(name), SNAPSHOT_LIMITS) && |Ascii(name)| <= 64
  {
    AsciiIsUtf8(Ascii(name));
  }

  lemma SourceSmall(s: SourceRecord)
    requires RegisteredForm(s) && Utf8.Valid(s.description)
    ensures SmallMembers(SourceMembers(s), 0, 0x4000)
  {
    hide Cast, Fits, Emit, KeyFits, Utf8.Valid, MakeObject, Ascii;
    DescriptorSmall(s);
    MadeFits(DescriptorMembers(s), 1, 523);
    MadeSize(DescriptorMembers(s), 1, 523);
    SmallName("descriptor");
    SmallNumber("epoch", Cast(s.epoch), 1);
    SmallNumber("generation", Cast(s.generation), 1);
    SmallNumber("id", Cast(s.id), 1);
    SmallLabel("name", s.name, 1);
    SmallNumber("registered_wall_ns", Cast(s.registeredWallNs), 1);
    SmallNumber("sequence", Cast(s.sequence), 1);
  }

  lemma DescriptorRead(s: SourceRecord)
    ensures DecodeDescriptor(MakeObject(DescriptorMembers(s))) == Ok(Descriptor(s.name, s.description, s.instanceId))
  {
    hide MakeObject, Named, GetInteger, GetText, Ascii, Counter, Label;
    var ms := DescriptorMembers(s);
    DescriptorKeys(s);
    MadeIsObject(ms);
    CounterRead(ms, 0, "declared_kind", 0, 0);
    LabelRead(ms, 1, "description", s.description);
    LabelRead(ms, 2, "instance_id", s.instanceId);
    LabelRead(ms, 3, "name", s.name);
    assert Cast(0) == 0;
  }

  lemma SourceRead(s: SourceRecord)
    requires RegisteredForm(s)
    ensures DecodeSource(MakeObject(SourceMembers(s))) == Ok(s) <==> Storable(s.generation) && Storable(s.sequence)
  {
    hide MakeObject, Named, GetText, Cast, Ascii, UnsignedOr, GetUnsigned, TextOr, IntegerOr, DecodeDescriptor,
         Utf8.Valid, Counter, Label;
    var ms := SourceMembers(s);
    SourceKeys(s);
    MadeIsObject(ms);
    DescriptorRead(s);
    PartRead(ms, 0, "descriptor", MakeObject(DescriptorMembers(s)));
    CounterRead(ms, 1, "epoch", s.epoch, 0);
    CounterRead(ms, 2, "generation", s.generation, 0);
    CounterRead(ms, 3, "id", s.id, 0);
    LabelRead(ms, 4, "name", s.name);
    SignedRead(ms, 5, "registered_wall_ns", s.registeredWallNs);
    CounterRead(ms, 6, "sequence", s.sequence, 0);
  }

  /**
   * A registered source comes back exactly when its description is UTF-8 and its stamps fit signed storage. The
   * description is the one text registration does not check, and one ill-formed text empties the whole record.
   */
  lemma SourceRoundTrip(s: SourceRecord)
    requires RegisteredForm(s)
    ensures var payload := EncodeDocument(MakeObject(SourceMembers(s)));
      && |payload| <= 0x8_0000
      && ((DecodeDocument(payload).Ok? && DecodeSource(DecodeDocument(payload).value) == Ok(s)) <==>
          Utf8.Valid(s.description) && Storable(s.generation) && Storable(s.sequence))
      && (DecodeDocument(payload).Err? <==> !Utf8.Valid(s.description))
  {
    hide MakeObject, Named, SmallMembers, EncodeDocument, DecodeDocument, DecodeSource, SourceMembers;
    SourceKeys(s);
    if Utf8.Valid(s.description) {
      SourceSmall(s);
      DocumentReadsBack(SourceMembers(s), 0x4000);
      SourceRead(s);
    } else {
      BadDescription(s);
    }
  }

  lemma BadDescription(s: SourceRecord)
    requires RegisteredForm(s) && !Utf8.Valid(s.description)
    ensures EncodeDocument(MakeObject(SourceMembers(s))) == [] && DecodeDocument([]).Err?
  {
    hide MakeObject, Encodable, DecodeDocument, SourceMembers;
    SourceShape(s);
    NothingReads();
  }

  lemma HeaderShape(h: StateHeader)
    ensures var v := MakeObject(HeaderMembers(h)); InKeyOrder(v) && Encodable(v)
  {
    hide MakeObject, Named, Ascii, Cast;
    HeaderKeys(h);
    MadeShape(HeaderMembers(h), []);
  }

  // ----- The lists inside modules and ports -----

  function DeclarationDocs(d: Doubles): Declaration -> Value { (c: Declaration) => DeclarationDoc(c, d) }

  function DeclarationFrom(d: Doubles): Value -> Result<Declaration> { (v: Value) => DecodeDeclaration(v, d) }

  function SampleDocs(d: Doubles): HealthSample -> Value { (s: HealthSample) => SampleDoc(s, d) }

  function SampleFrom(d: Doubles): Value -> Result<HealthSample> { (v: Value) => DecodeSample(v, d) }

  lemma ClaimsRead(cs: seq<IdentityClaim>)
    requires forall c :: c in cs ==> ClaimTyped(c)
    ensures DecodeAll(EncodeAll(cs, ClaimDoc), DecodeClaim) == Ok(cs)
    ensures var es := Array(EncodeAll(cs, ClaimDoc));
      InKeyOrder(es) && (Encodable(es) <==> forall c :: c in cs ==> ClaimTexts(c))
  {
    hide DecodeAll, EncodeAll, ClaimTyped, ClaimTexts, ClaimDoc, DecodeClaim, Encodable, InKeyOrder;
    forall c | c in cs
      ensures DecodeClaim(ClaimDoc(c)) == Ok(c)
      ensures InKeyOrder(ClaimDoc(c)) && (Encodable(ClaimDoc(c)) <==> ClaimTexts(c))
    {
      ClaimRead(c);
      ClaimShape(c);
    }
    AllRead(cs, ClaimDoc, DecodeClaim, (c: IdentityClaim) => true);
    AllShape(cs, ClaimDoc, ClaimTexts);
  }

  lemma DeclarationsRead(cs: seq<Declaration>, d: Doubles)
    requires forall c :: c in cs ==> DeclarationTyped(c, d)
    ensures (forall c :: c in cs ==> DeclarationRanges(c)) ==>
            DecodeAll(EncodeAll(cs, DeclarationDocs(d)), DeclarationFrom(d)) == Ok(cs)
    ensures (exists c :: c in cs && !DeclarationRanges(c)) ==>
            DecodeAll(EncodeAll(cs, DeclarationDocs(d)), DeclarationFrom(d)).Err?
    ensures var es := Array(EncodeAll(cs, DeclarationDocs(d)));
      InKeyOrder(es) && (Encodable(es) <==> forall c :: c in cs ==> DeclarationTexts(c))
  {
    hide DecodeAll, EncodeAll, DeclarationTyped, DeclarationRanges, DeclarationTexts, DeclarationDoc, DecodeDeclaration,
         Encodable, InKeyOrder;
    forall c | c in cs
      ensures DeclarationRanges(c) ==> DeclarationFrom(d)(DeclarationDocs(d)(c)) == Ok(c)
      ensures !DeclarationRanges(c) ==> DeclarationFrom(d)(DeclarationDocs(d)(c)).Err?
      ensures InKeyOrder(DeclarationDocs(d)(c)) && (Encodable(DeclarationDocs(d)(c)) <==> DeclarationTexts(c))
    {
      DeclarationRead(c, d);
      DeclarationShape(c, d);
    }
    AllRead(cs, DeclarationDocs(d), DeclarationFrom(d), DeclarationRanges);
    AllShape(cs, DeclarationDocs(d), DeclarationTexts);
  }

  lemma SamplesRead(xs: seq<HealthSample>, d: Doubles)
    requires forall x :: x in xs ==> SampleTyped(x, d)
    ensures (forall x :: x in xs ==> SampleRanges(x)) ==>
            DecodeAll(EncodeAll(xs, SampleDocs(d)), SampleFrom(d)) == Ok(xs)
    ensures (exists x :: x in xs && !SampleRanges(x)) ==>
            DecodeAll(EncodeAll(xs, SampleDocs(d)), SampleFrom(d)).Err?
    ensures var es := Array(EncodeAll(xs, SampleDocs(d)));
      InKeyOrder(es) && (Encodable(es) <==> forall x :: x in xs ==> SampleTexts(x))
  {
    hide DecodeAll, EncodeAll, SampleTyped, SampleRanges, SampleTexts, SampleDoc, DecodeSample, Encodable, InKeyOrder;
    forall x | x in xs
      ensures SampleRanges(x) ==> SampleFrom(d)(SampleDocs(d)(x)) == Ok(x)
      ensures !SampleRanges(x) ==> SampleFrom(d)(SampleDocs(d)(x)).Err?
      ensures InKeyOrder(SampleDocs(d)(x)) && (Encodable(SampleDocs(d)(x)) <==> SampleTexts(x))
    {
      SampleRead(x, d);
      SampleShape(x, d);
    }
    AllRead(xs, SampleDocs(d), SampleFrom(d), SampleRanges);
    AllShape(xs, SampleDocs(d), SampleTexts);
  }

  lemma LatchesRead(ls: seq<LatchRecord>)
    requires forall l :: l in ls ==> LatchTyped(l.latch)
    ensures DecodeAll(EncodeAll(ls, SeriesDoc), DecodeSeries) == Ok(ls)
    ensures InKeyOrder(Array(EncodeAll(ls, SeriesDoc))) && Encodable(Array(EncodeAll(ls, SeriesDoc)))
  {
    hide DecodeAll, EncodeAll, LatchTyped, SeriesDoc, DecodeSeries, Encodable, InKeyOrder;
    forall l | l in ls
      ensures DecodeSeries(SeriesDoc(l)) == Ok(l) && InKeyOrder(SeriesDoc(l)) && Encodable(SeriesDoc(l))
    {
      SeriesRead(l);
    }
    AllRead(ls, SeriesDoc, DecodeSeries, (l: LatchRecord) => true);
    AllShape(ls, SeriesDoc, (l: LatchRecord) => true);
  }

  lemma EventsRead(es: seq<LifecycleEvent>)
    requires forall e :: e in es ==> EventTyped(e)
    ensures DecodeAll(EncodeAll(es, EventDoc), DecodeEvent) == Ok(es)
    ensures var v := Array(EncodeAll(es, EventDoc));
      InKeyOrder(v) && (Encodable(v) <==> forall e :: e in es ==> EventTexts(e))
  {
    hide DecodeAll, EncodeAll, EventTyped, EventTexts, EventDoc, DecodeEvent, Encodable, InKeyOrder;
    forall e | e in es
      ensures DecodeEvent(EventDoc(e)) == Ok(e)
      ensures InKeyOrder(EventDoc(e)) && (Encodable(EventDoc(e)) <==> EventTexts(e))
    {
      EventRead(e);
      EventShape(e);
    }
    AllRead(es, EventDoc, DecodeEvent, (e: LifecycleEvent) => true);
    AllShape(es, EventDoc, EventTexts);
  }

  // ----- Ports -----

  function PortMembers(p: PortRecord, d: Doubles): seq<Member> {
    [Member(Ascii("declarations"), Array(EncodeAll(p.declarations, DeclarationDocs(d)))),
     Counter("first_generation", p.firstGeneration), Counter("first_wall_ns", p.firstWallNs), Label("key", p.key),
     Counter("sequence", p.sequence)]
  }

  function PortDoc(p: PortRecord, d: Doubles): Value { MakeObject(PortMembers(p, d)) }

  /** Key::parse: unlike get_key it refuses the empty text. */
  function ParseKey(t: Text): Result<Text> { if IsKeyText(t) then Ok(t) else Err(InvalidArgument) }

  function DecodePort(v: Value, d: Doubles): Result<PortRecord> {
    if !v.Object? then Err(Malformed)
    else
      var text :- GetText(v, Ascii("key"));
      var key :- ParseKey(text);
      var declarations :- DecodeAll(ArrayOr(v, Ascii("declarations")), DeclarationFrom(d));
      Ok(PortRecord(key, UnsignedOr(v, Ascii("first_generation"), 0), UnsignedOr(v, Ascii("sequence"), 0),
                    IntegerOr(v, Ascii("first_wall_ns"), 0), declarations))
  }

  ghost predicate PortTyped(p: PortRecord, d: Doubles) {
    && IsKeyText(p.key) && Word(p.firstGeneration) && Word(p.sequence) && Storable(p.firstWallNs)
    && forall c :: c in p.declarations ==> DeclarationTyped(c, d)
  }

  predicate PortRanges(p: PortRecord) { forall c :: c in p.declarations ==> DeclarationRanges(c) }

  predicate PortTexts(p: PortRecord) { forall c :: c in p.declarations ==> DeclarationTexts(c) }

  lemma PortKeys(p: PortRecord, d: Doubles)
    ensures Named(PortMembers(p, d))
  {
    hide Cast, Ascii, Alphabetical, EncodeAll;
    PortNames();
    NamedInOrder(PortMembers(p, d), PORT_NAMES, PORT_SPLITS);
  }

  lemma PortRead(p: PortRecord, d: Doubles)
    requires PortTyped(p, d)
    ensures PortRanges(p) ==> DecodePort(PortDoc(p, d), d) == Ok(p)
    ensures !PortRanges(p) ==> DecodePort(PortDoc(p, d), d).Err?
  {
    hide MakeObject, Named, GetText, GetArray, GetInteger, UnsignedOr, IntegerOr, Cast, Ascii, Counter, Label,
         IsKeyText, EncodeAll, DecodeAll, DeclarationTyped, DeclarationRanges, Encodable, InKeyOrder;
    var ms := PortMembers(p, d);
    PortKeys(p, d);
    MadeIsObject(ms);
    DeclarationsRead(p.declarations, d);
    ListRead(ms, 0, "declarations", EncodeAll(p.declarations, DeclarationDocs(d)));
    CounterRead(ms, 1, "first_generation", p.firstGeneration, 0);
    SignedRead(ms, 2, "first_wall_ns", p.firstWallNs);
    LabelRead(ms, 3, "key", p.key);
    CounterRead(ms, 4, "sequence", p.sequence, 0);
  }

  lemma PortShape(p: PortRecord, d: Doubles)
    requires PortTyped(p, d)
    ensures InKeyOrder(PortDoc(p, d)) && (Encodable(PortDoc(p, d)) <==> PortTexts(p))
  {
    hide MakeObject, Named, Utf8.Valid, Ascii, Cast, IsKeyText, EncodeAll, DecodeAll, DeclarationTyped,
         DeclarationTexts;
    var ms := PortMembers(p, d);
    PortKeys(p, d);
    var parts := [0, 3];
    MadeShape(ms, parts);
    KeyIsUtf8(p.key);
    DeclarationsRead(p.declarations, d);
    assert ms[parts[0]].value == Array(EncodeAll(p.declarations, DeclarationDocs(d)));
    assert Encodable(ms[parts[1]].value);
  }

  // ----- Modules -----

  function ModuleMembers(r: ModuleRecord, d: Doubles): seq<Member> {
    [Member(Ascii("claims"), Array(EncodeAll(r.claims, ClaimDoc))), Counter("created_generation", r.createdGeneration),
     Counter("created_sequence", r.createdSequence), Counter("created_wall_ns", r.createdWallNs),
     Member(Ascii("declarations"), Array(EncodeAll(r.declarations, DeclarationDocs(d)))),
     Counter("fenced_generation", r.fencedGeneration), Counter("incarnation", r.incarnation),
     Counter("incarnation_count", r.incarnationCount), Label("key", r.key),
     Member(Ascii("latches"), Array(EncodeAll(r.latches, SeriesDoc))),
     Member(Ascii("lifecycle"), Array(EncodeAll(r.lifecycle, EventDoc))),
     Member(Ascii("samples"), Array(EncodeAll(r.samples, SampleDocs(d)))), Counter("state", StateCode(r.state)),
     Counter("state_generation", r.stateGeneration), Counter("state_sequence", r.stateSequence),
     Counter("state_wall_ns", r.stateWallNs), Counter("uid", r.uid)]
  }

  function ModuleDoc(r: ModuleRecord, d: Doubles): Value { MakeObject(ModuleMembers(r, d)) }

  /** The event the reader makes up for a module without history. */
  function RestoredEvent(state: LifecycleState, incarnation: nat, generation: nat, sequence: nat,
                         wallNs: int): LifecycleEvent {
    LifecycleEvent(Discovered, state, incarnation, 0, 0, generation, sequence, wallNs,
                   Ascii("restored from a snapshot that carried no lifecycle history"))
  }

  /** The five lists of a module. */
  datatype Contents = Contents(claims: seq<IdentityClaim>, declarations: seq<Declaration>, samples: seq<HealthSample>,
                         latches: seq<LatchRecord>, lifecycle: seq<LifecycleEvent>)

  function DecodeLists(v: Value, d: Doubles): Result<Contents> {
    var claims :- DecodeAll(ArrayOr(v, Ascii("claims")), DecodeClaim);
    var declarations :- DecodeAll(ArrayOr(v, Ascii("declarations")), DeclarationFrom(d));
    var samples :- DecodeAll(ArrayOr(v, Ascii("samples")), SampleFrom(d));
    var latches :- DecodeAll(ArrayOr(v, Ascii("latches")), DecodeSeries);
    var lifecycle :- DecodeAll(ArrayOr(v, Ascii("lifecycle")), DecodeEvent);
    Ok(Contents(claims, declarations, samples, latches, lifecycle))
  }

  /** decode_module. */
  function DecodeModule(v: Value, d: Doubles): Result<ModuleRecord> {
    if !v.Object? then Err(Malformed)
    else
      var text :- GetText(v, Ascii("key"));
      var key :- ParseKey(text);
      var uid :- GetUnsigned(v, Ascii("uid"));
      if uid == 0 then Err(Malformed)
      else
        var incarnation :- GetUnsigned(v, Ascii("incarnation"));
        if incarnation == 0 || incarnation > MAX_U32 then Err(Malformed)
        else
          var code :- GetAtMost(v, Ascii("state"), 8);
          var state := StateFrom(code);
          var stateGeneration := UnsignedOr(v, Ascii("state_generation"), 0);
          var stateSequence := UnsignedOr(v, Ascii("state_sequence"), 0);
          var createdWallNs := IntegerOr(v, Ascii("created_wall_ns"), 0);
          var count := UnsignedOr(v, Ascii("incarnation_count"), 1);
          if count == 0 || count > MAX_U32 then Err(Malformed)
          else
            var lists :- DecodeLists(v, d);
            var lifecycle := if lists.lifecycle != [] then lists.lifecycle
                             else [RestoredEvent(state, incarnation, stateGeneration, stateSequence, createdWallNs)];
            Ok(ModuleRecord(key, uid, incarnation, state, stateGeneration, stateSequence,
                            IntegerOr(v, Ascii("state_wall_ns"), 0), UnsignedOr(v, Ascii("created_generation"), 0),
                            UnsignedOr(v, Ascii("created_sequence"), 0), createdWallNs,
                            UnsignedOr(v, Ascii("fenced_generation"), 0), count, lists.claims, lists.declarations,
                            lists.samples, lifecycle, lists.latches, Recount(lists.samples)))
  }

  predicate ModuleCountersTyped(r: ModuleRecord) {
    && IsKeyText(r.key) && 1 <= r.uid && Word(r.uid) && 1 <= r.incarnation <= MAX_U32
       && 1 <= r.incarnationCount <= MAX_U32
    && Word(r.stateGeneration) && Word(r.stateSequence) && Storable(r.stateWallNs) && Word(r.createdGeneration)
    && Word(r.createdSequence) && Storable(r.createdWallNs) && Word(r.fencedGeneration)
  }

  ghost predicate ModuleListsTyped(r: ModuleRecord, d: Doubles) {
    && (forall c :: c in r.claims ==> ClaimTyped(c)) && (forall c :: c in r.declarations ==> DeclarationTyped(c, d))
    && (forall x :: x in r.samples ==> SampleTyped(x, d)) && (forall l :: l in r.latches ==> LatchTyped(l.latch))
    && (forall e :: e in r.lifecycle ==> EventTyped(e))
  }

  /** In its saved form the series counters are recounted, and some history is kept. */
  ghost predicate ModuleTyped(r: ModuleRecord, d: Doubles) {
    && ModuleCountersTyped(r) && ModuleListsTyped(r, d)
    && r.lifecycle != [] && r.seriesCounts == Recount(r.samples)
  }

  predicate ModuleRanges(r: ModuleRecord) {
    (forall c :: c in r.declarations ==> DeclarationRanges(c)) && (forall x :: x in r.samples ==> SampleRanges(x))
  }

  predicate ModuleTexts(r: ModuleRecord) {
    && (forall c :: c in r.claims ==> ClaimTexts(c)) && (forall c :: c in r.declarations ==> DeclarationTexts(c))
    && (forall x :: x in r.samples ==> SampleTexts(x)) && (forall e :: e in r.lifecycle ==> EventTexts(e))
  }

  lemma ModuleKeys(r: ModuleRecord, d: Doubles)
    ensures Named(ModuleMembers(r, d))
  {
    hide Cast, Ascii, Alphabetical, EncodeAll, StateCode;
    ModuleNames();
    NamedInOrder(ModuleMembers(r, d), MODULE_NAMES, MODULE_SPLITS);
  }

  lemma ModuleLists(r: ModuleRecord, d: Doubles)
    ensures var v := ModuleDoc(r, d);
      && ArrayOr(v, Ascii("claims")) == EncodeAll(r.claims, ClaimDoc)
      && ArrayOr(v, Ascii("declarations")) == EncodeAll(r.declarations, DeclarationDocs(d))
      && ArrayOr(v, Ascii("samples")) == EncodeAll(r.samples, SampleDocs(d))
      && ArrayOr(v, Ascii("latches")) == EncodeAll(r.latches, SeriesDoc)
      && ArrayOr(v, Ascii("lifecycle")) == EncodeAll(r.lifecycle, EventDoc)
  {
    hide MakeObject, Named, GetArray, Ascii, Counter, Label, EncodeAll, StateCode;
    var ms := ModuleMembers(r, d);
    ModuleKeys(r, d);
    ListRead(ms, 0, "claims", EncodeAll(r.claims, ClaimDoc));
    ListRead(ms, 4, "declarations", EncodeAll(r.declarations, DeclarationDocs(d)));
    ListRead(ms, 9, "latches", EncodeAll(r.latches, SeriesDoc));
    ListRead(ms, 10, "lifecycle", EncodeAll(r.lifecycle, EventDoc));
    ListRead(ms, 11, "samples", EncodeAll(r.samples, SampleDocs(d)));
  }

  lemma ListsRead(r: ModuleRecord, d: Doubles)
    requires ModuleListsTyped(r, d)
    ensures ModuleRanges(r) ==>
            DecodeLists(ModuleDoc(r, d), d) == Ok(Contents(r.claims, r.declarations, r.samples, r.latches, r.lifecycle))
    ensures !ModuleRanges(r) ==> DecodeLists(ModuleDoc(r, d), d).Err?
  {
    hide ModuleDoc, ArrayOr, Ascii, EncodeAll, DecodeAll, ClaimTyped, DeclarationTyped, DeclarationRanges, SampleTyped,
         SampleRanges, LatchTyped, EventTyped, Encodable, InKeyOrder, ClaimTexts, DeclarationTexts, SampleTexts,
         EventTexts;
    ModuleLists(r, d);
    ClaimsRead(r.claims);
    DeclarationsRead(r.declarations, d);
    SamplesRead(r.samples, d);
    LatchesRead(r.latches);
    EventsRead(r.lifecycle);
  }

  lemma ModuleIdentityRead(r: ModuleRecord, d: Doubles)
    requires ModuleCountersTyped(r)
    ensures var v := ModuleDoc(r, d);
      && GetText(v, Ascii("key")) == Ok(r.key) && GetUnsigned(v, Ascii("uid")) == Ok(r.uid)
      && GetUnsigned(v, Ascii("incarnation")) == Ok(r.incarnation)
      && UnsignedOr(v, Ascii("incarnation_count"), 1) == r.incarnationCount
      && UnsignedOr(v, Ascii("fenced_generation"), 0) == r.fencedGeneration
      && GetAtMost(v, Ascii("state"), 8) == Ok(StateCode(r.state)) && StateFrom(StateCode(r.state)) == r.state
  {
    hide MakeObject, Named, GetText, GetUnsigned, GetInteger, GetAtMost, UnsignedOr, Cast, Ascii, Counter, Label,
         IsKeyText, EncodeAll;
    var ms := ModuleMembers(r, d);
    ModuleKeys(r, d);
    CounterRead(ms, 5, "fenced_generation", r.fencedGeneration, 0);
    CounterRead(ms, 6, "incarnation", r.incarnation, 0);
    CounterRead(ms, 7, "incarnation_count", r.incarnationCount, 1);
    LabelRead(ms, 8, "key", r.key);
    BoundedRead(ms, 12, "state", StateCode(r.state), 8);
    CounterRead(ms, 16, "uid", r.uid, 0);
  }

  lemma ModuleCreationRead(r: ModuleRecord, d: Doubles)
    requires ModuleCountersTyped(r)
    ensures var v := ModuleDoc(r, d);
      && UnsignedOr(v, Ascii("created_generation"), 0) == r.createdGeneration
      && UnsignedOr(v, Ascii("created_sequence"), 0) == r.createdSequence
      && IntegerOr(v, Ascii("created_wall_ns"), 0) == r.createdWallNs
  {
    hide MakeObject, Named, GetUnsigned, GetInteger, UnsignedOr, IntegerOr, Cast, Ascii, Counter, Label, IsKeyText,
         EncodeAll, StateCode;
    var ms := ModuleMembers(r, d);
    ModuleKeys(r, d);
    CounterRead(ms, 1, "created_generation", r.createdGeneration, 0);
    CounterRead(ms, 2, "created_sequence", r.createdSequence, 0);
    SignedRead(ms, 3, "created_wall_ns", r.createdWallNs);
  }

  lemma ModuleStateRead(r: ModuleRecord, d: Doubles)
    requires ModuleCountersTyped(r)
    ensures var v := ModuleDoc(r, d);
      && UnsignedOr(v, Ascii("state_generation"), 0) == r.stateGeneration
      && UnsignedOr(v, Ascii("state_sequence"), 0) == r.stateSequence
      && IntegerOr(v, Ascii("state_wall_ns"), 0) == r.stateWallNs
  {
    hide MakeObject, Named, GetUnsigned, GetInteger, UnsignedOr, IntegerOr, Cast, Ascii, Counter, Label, IsKeyText,
         EncodeAll, StateCode;
    var ms := ModuleMembers(r, d);
    ModuleKeys(r, d);
    CounterRead(ms, 13, "state_generation", r.stateGeneration, 0);
    CounterRead(ms, 14, "state_sequence", r.stateSequence, 0);
    SignedRead(ms, 15, "state_wall_ns", r.stateWallNs);
  }

  lemma ModuleRead(r: ModuleRecord, d: Doubles)
    requires ModuleTyped(r, d)
    ensures ModuleRanges(r) ==> DecodeModule(ModuleDoc(r, d), d) == Ok(r)
    ensures !ModuleRanges(r) ==> DecodeModule(ModuleDoc(r, d), d).Err?
  {
    hide ModuleMembers, MakeObject, GetText, GetUnsigned, GetAtMost, UnsignedOr, IntegerOr, Ascii, StateCode, StateFrom,
         DecodeLists, ModuleRanges, ModuleListsTyped, RestoredEvent, IsKeyText, Recount, Word, Storable;
    MadeIsObject(ModuleMembers(r, d));
    ModuleIdentityRead(r, d);
    ModuleCreationRead(r, d);
    ModuleStateRead(r, d);
    ListsRead(r, d);
  }

  const MODULE_PARTS: seq<nat> := [0, 4, 8, 9, 10, 11]

  /** The members of a module that are not plain numbers. */
  lemma ModuleParts(r: ModuleRecord, d: Doubles)
    ensures var ms := ModuleMembers(r, d);
      && |ms| == 17 && (forall i :: 0 <= i < |ms| ==> Plain(ms[i].value) || i in MODULE_PARTS)
      && ms[0].value == Array(EncodeAll(r.claims, ClaimDoc))
      && ms[4].value == Array(EncodeAll(r.declarations, DeclarationDocs(d)))
      && ms[8].value == String(r.key) && ms[9].value == Array(EncodeAll(r.latches, SeriesDoc))
      && ms[10].value == Array(EncodeAll(r.lifecycle, EventDoc))
      && ms[11].value == Array(EncodeAll(r.samples, SampleDocs(d)))
  {
    hide Ascii, Cast, StateCode, EncodeAll, ClaimDoc, DeclarationDocs, SeriesDoc, EventDoc, SampleDocs;
  }

  lemma ListsShape(r: ModuleRecord, d: Doubles)
    requires ModuleListsTyped(r, d)
    ensures var claims, declarations := Array(EncodeAll(r.claims, ClaimDoc)),
            Array(EncodeAll(r.declarations, DeclarationDocs(d)));
      var latches, samples := Array(EncodeAll(r.latches, SeriesDoc)), Array(EncodeAll(r.samples, SampleDocs(d)));
      var lifecycle := Array(EncodeAll(r.lifecycle, EventDoc));
      && InKeyOrder(claims) && InKeyOrder(declarations) && InKeyOrder(latches) && InKeyOrder(lifecycle)
         && InKeyOrder(samples)
      && Encodable(latches)
      && (Encodable(claims) && Encodable(declarations) && Encodable(lifecycle) && Encodable(samples)
          <==> ModuleTexts(r))
  {
    hide EncodeAll, DecodeAll, ClaimDoc, DeclarationDocs, SeriesDoc, EventDoc, SampleDocs, ClaimTyped, DeclarationTyped,
         SampleTyped, LatchTyped, EventTyped, ClaimTexts, DeclarationTexts, SampleTexts, EventTexts, DeclarationRanges,
         SampleRanges, Encodable, InKeyOrder;
    ClaimsRead(r.claims);
    DeclarationsRead(r.declarations, d);
    SamplesRead(r.samples, d);
    LatchesRead(r.latches);
    EventsRead(r.lifecycle);
  }

  lemma KeyShape(t: Text)
    requires IsKeyText(t)
    ensures InKeyOrder(String(t)) && Encodable(String(t))
  {
    KeyIsUtf8(t);
  }

  lemma ModuleShape(r: ModuleRecord, d: Doubles)
    requires ModuleTyped(r, d)
    ensures InKeyOrder(ModuleDoc(r, d)) && (Encodable(ModuleDoc(r, d)) <==> ModuleTexts(r))
  {
    hide MakeObject, Named, Plain, IsKeyText, EncodeAll, ModuleMembers, ModuleListsTyped, ModuleTexts, Encodable,
         InKeyOrder, Recount, ClaimDoc, DeclarationDocs, SeriesDoc, EventDoc, SampleDocs;
    var ms := ModuleMembers(r, d);
    ModuleKeys(r, d);
    ModuleParts(r, d);
    var parts := MODULE_PARTS;
    MadeShape(ms, parts);
    KeyShape(r.key);
    ListsShape(r, d);
    assert parts[0] == 0 && parts[1] == 4 && parts[2] == 8 && parts[3] == 9 && parts[4] == 10 && parts[5] == 11;
  }

  // ----- Any record -----

  function DocOf(r: Record, d: Doubles): Value {
    match r
    case HeaderEntry(h) => MakeObject(HeaderMembers(h))
    case SourceEntry(s) => MakeObject(SourceMembers(s))
    case ModuleEntry(m) => ModuleDoc(m, d)
    case PortEntry(p) => PortDoc(p, d)
    case AttachmentEntry(a) => AttachmentDoc(a)
    case ThresholdEntry(t) => PublishedDoc(t, d)
    case RuleEntry(rule) => RuleDoc(rule, d)
  }

  /** The switch of the parse loop; an unknown kind is malformed. */
  function DecodeKind(kind: Byte, v: Value, d: Doubles): Result<Record> {
    match kind
    case 1 =>
      var header :- DecodeHeader(v);
      Ok(HeaderEntry(header))
    case 2 =>
      var source :- DecodeSource(v);
      Ok(SourceEntry(source))
    case 3 =>
      var record :- DecodeModule(v, d);
      Ok(ModuleEntry(record))
    case 4 =>
      var port :- DecodePort(v, d);
      Ok(PortEntry(port))
    case 5 =>
      var attachment :- DecodeAttachment(v);
      Ok(AttachmentEntry(attachment))
    case 6 =>
      var threshold :- DecodePublished(v, d);
      Ok(ThresholdEntry(threshold))
    case 7 =>
      var rule :- DecodeRule(v, d);
      Ok(RuleEntry(rule))
    case _ => Err(Malformed)
  }

  /** The fields hold what their C++ types can hold, the registry's own counters less than 2^63. */
  ghost predicate TypedOf(r: Record, d: Doubles) {
    match r
    case HeaderEntry(h) => HeaderStorable(h)
    case SourceEntry(s) => RegisteredForm(s) && Storable(s.generation) && Storable(s.sequence)
    case ModuleEntry(m) => ModuleTyped(m, d)
    case PortEntry(p) => PortTyped(p, d)
    case AttachmentEntry(a) => AttachmentTyped(a)
    case ThresholdEntry(t) => ThresholdTyped(t.threshold, d)
    case RuleEntry(rule) => RuleTyped(rule, d)
  }

  /** Every text the record stores without having checked it is UTF-8. */
  predicate TextsOf(r: Record) {
    match r
    case SourceEntry(s) => Utf8.Valid(s.description)
    case ModuleEntry(m) => ModuleTexts(m)
    case PortEntry(p) => PortTexts(p)
    case ThresholdEntry(t) => ThresholdTexts(t.threshold)
    case RuleEntry(rule) => ContentTexts(ContentOf(rule))
    case _ => true
  }

  /** Every number the record stores is one the reader takes back. */
  predicate RangesOf(r: Record) {
    match r
    case ModuleEntry(m) => ModuleRanges(m)
    case PortEntry(p) => PortRanges(p)
    case RuleEntry(rule) => ContentRanges(ContentOf(rule))
    case _ => true
  }

  /** A record comes back from its document exactly when its numbers are in range. */
  lemma RecordRead(r: Record, d: Doubles)
    requires TypedOf(r, d)
    ensures RangesOf(r) ==> DecodeKind(TagOf(r), DocOf(r, d), d) == Ok(r)
    ensures !RangesOf(r) ==> DecodeKind(TagOf(r), DocOf(r, d), d).Err?
  {
    hide MakeObject, HeaderMembers, SourceMembers, DecodeHeader, DecodeSource, HeaderStorable, RegisteredForm,
         ModuleDoc, DecodeModule, ModuleTyped, ModuleRanges, PortDoc, DecodePort, PortTyped, PortRanges, AttachmentDoc,
         DecodeAttachment, AttachmentTyped, PublishedDoc, DecodePublished, ThresholdTyped, RuleDoc, DecodeRule,
         RuleTyped, ContentRanges, Encodable, InKeyOrder, EncodeDocument, DecodeDocument;
    match r
    case HeaderEntry(h) => HeaderRoundTrip(h);
    case SourceEntry(s) => SourceRead(s);
    case ModuleEntry(m) => ModuleRead(m, d);
    case PortEntry(p) => PortRead(p, d);
    case AttachmentEntry(a) => AttachmentRead(a);
    case ThresholdEntry(t) => PublishedRead(t, d);
    case RuleEntry(rule) => RuleRead(rule, d);
  }

  /** Its document has an encoding exactly when its texts are UTF-8. */
  lemma RecordShape(r: Record, d: Doubles)
    requires TypedOf(r, d)
    ensures InKeyOrder(DocOf(r, d)) && (Encodable(DocOf(r, d)) <==> TextsOf(r))
  {
    hide MakeObject, HeaderMembers, SourceMembers, HeaderStorable, RegisteredForm, ModuleDoc, ModuleTyped, ModuleTexts,
         PortDoc, PortTyped, PortTexts, AttachmentDoc, AttachmentTyped, PublishedDoc, DecodePublished, ThresholdTyped,
         ThresholdTexts, RuleDoc, RuleTyped, ContentTexts, Encodable, InKeyOrder, Utf8.Valid;
    match r
    case HeaderEntry(h) => HeaderShape(h);
    case SourceEntry(s) => SourceShape(s);
    case ModuleEntry(m) => ModuleShape(m, d);
    case PortEntry(p) => PortShape(p, d);
    case AttachmentEntry(a) => AttachmentShape(a);
    case ThresholdEntry(t) => PublishedRead(t, d);
    case RuleEntry(rule) => RuleShape(rule, d);
  }
}
