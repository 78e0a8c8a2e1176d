/** Records as canonical documents: src/value_fields.hpp:18-153 and the header and source codecs of src/snapshot.cpp. */
module Documents {
  import opened Bytes
  import opened Ordering
  import Varint
  import Utf8
  import opened Canonical
  import opened ObjectValue
  import opened FieldNames

  /** CanonicalLimits::snapshot. */
  const SNAPSHOT_LIMITS :=
    Limits(0x400_0000, 0x1_0000, 0x10_0000, 0x10_0000, 0x1_0000, 24, 0x40_0000)

  /** encode_document: a failed writer leaves an empty payload behind. */
  function EncodeDocument(v: Value): seq<Byte> { if Encodable(v) then Emit(v) else [] }

  function DecodeDocument(payload: seq<Byte>): Result<Value> { ReadDocument(payload, SNAPSHOT_LIMITS) }

  // ----- Typed fields -----

  function FieldOf(v: Value, key: Text): Option<Value> { if v.Object? then Find(v.members, key) else None }

  function GetInteger(v: Value, key: Text): Result<I64> {
    match FieldOf(v, key)
    case Some(Integer(i)) => Ok(i)
    case _ => Err(Malformed)
  }

  function GetUnsigned(v: Value, key: Text): Result<nat> {
    var i :- GetInteger(v, key);
    if i < 0 then Err(Malformed) else Ok(i)
  }

  function GetText(v: Value, key: Text): Result<Text> {
    match FieldOf(v, key)
    case Some(String(t)) => Ok(t)
    case _ => Err(Malformed)
  }

  function GetBoolean(v: Value, key: Text): Result<bool> {
    match FieldOf(v, key)
    case Some(Boolean(b)) => Ok(b)
    case _ => Err(Malformed)
  }

  function GetArray(v: Value, key: Text): Result<seq<Value>> {
    match FieldOf(v, key)
    case Some(Array(es)) => Ok(es)
    case _ => Err(Malformed)
  }

  /** get_u16, get_u32 and get_enum: an unsigned integer up to the last admissible one. */
  function GetAtMost(v: Value, key: Text, most: nat): Result<nat> {
    var n :- GetUnsigned(v, key);
    if n > most then Err(Malformed) else Ok(n)
  }

  /** get_unsigned_field: both integer kinds, the signed one not negative. */
  function GetUnsignedField(v: Value, key: Text): Result<U64> {
    match FieldOf(v, key)
    case Some(Unsigned(u)) => Ok(u)
    case Some(Integer(i)) => if i < 0 then Err(Malformed) else Ok(i)
    case _ => Err(Malformed)
  }

  /** Require_field. */
  function GetField(v: Value, key: Text): Result<Value> {
    match FieldOf(v, key)
    case Some(field) => Ok(field)
    case None => Err(Malformed)
  }

  function IntegerOr(v: Value, key: Text, fallback: I64): I64 {
    match GetInteger(v, key)
    case Ok(i) => i
    case Err(_) => fallback
  }

  function UnsignedOr(v: Value, key: Text, fallback: nat): nat {
    match GetUnsigned(v, key)
    case Ok(n) => n
    case Err(_) => fallback
  }

  function TextOr(v: Value, key: Text, fallback: Text): Text {
    match GetText(v, key)
    case Ok(t) => t
    case Err(_) => fallback
  }

  function BooleanOr(v: Value, key: Text, fallback: bool): bool {
    match GetBoolean(v, key)
    case Ok(b) => b
    case Err(_) => fallback
  }

  function ArrayOr(v: Value, key: Text): seq<Value> {
    match GetArray(v, key)
    case Ok(es) => es
    case Err(_) => []
  }

  /** `static_cast<std::int64_t>`. */
  function Cast(n: int): I64 { (n + 0x8000_0000_0000_0000) % 0x1_0000_0000_0000_0000 - 0x8000_0000_0000_0000 }

  /** Signed 64-bit storage holds it. */
  predicate Storable(n: int) { -0x8000_0000_0000_0000 <= n < 0x8000_0000_0000_0000 }

  lemma CastExact(n: int)
    ensures Cast(n) == n <==> Storable(n)
  {
  }

  function Counter(name: string, n: int): Member { Member(Ascii(name), Integer(Cast(n))) }

  /** An unsigned 64-bit word. */
  function Wide(name: string, n: nat): Member { Member(Ascii(name), Unsigned(n % 0x1_0000_0000_0000_0000)) }

  function Label(name: string, t: Text): Member { Member(Ascii(name), String(t)) }

  // ----- Doubles -----

  /** The numbers doubles stand for, both ways. */
  datatype Doubles = Doubles(bits: real -> U64, number: U64 -> real)

  predicate IsFinite(bits: U64) { bits / 0x10_0000_0000_0000 % 0x800 != 0x7FF }

  /** x is a finite double. */
  predicate Exact(d: Doubles, x: real) { IsFinite(d.bits(x)) && d.number(d.bits(x)) == x }

  /** get_real with the test for a finite value; integers are numbers too. */
  function GetFinite(v: Value, key: Text, d: Doubles): Result<real> {
    match FieldOf(v, key)
    case Some(Real(bits)) => if IsFinite(bits) then Ok(d.number(bits)) else Err(Malformed)
    case Some(Integer(i)) => Ok(i as real)
    case Some(Unsigned(u)) => Ok(u as real)
    case _ => Err(Malformed)
  }

  function Flag(name: string, b: bool): Member { Member(Ascii(name), Boolean(b)) }

  function Number(name: string, x: real, d: Doubles): Member { Member(Ascii(name), Real(d.bits(x))) }

  // ----- Objects made of a few small members -----

  lemma {:induction false} AsciiIsUtf8(t: Text)
    requires forall i :: 0 <= i < |t| ==> t[i] < 0x80
    ensures Utf8.Valid(t)
  {
    if t != [] {
      AsciiIsUtf8(t[1..]);
    }
  }

  lemma {:induction false} VarintShort(n: nat, k: nat)
    requires k >= 1 && n < Varint.Shift(1, k)
    ensures |Varint.Encode(n)| <= k
  {
    if n >= 0x80 {
      assert k > 1;
      VarintShort(n / 0x80, k - 1);
    }
  }

  lemma WordShort(n: U64)
    ensures |Varint.Encode(n)| <= 10
  {
    Varint.ShiftValues();
    assert Varint.Shift(1, 10) == 128 * Varint.Shift(1, 9);
    VarintShort(n, 10);
  }

  lemma {:induction false} RepeatsOnlyGo(ms: seq<Member>)
    ensures |DropRepeats(ms)| <= |ms|
    decreases |ms|
  {
    if |ms| > 1 {
      RepeatsOnlyGo([ms[0]] + ms[2..]);
      RepeatsOnlyGo(ms[1..]);
    }
  }

  /** Making an object adds no member. */
  lemma MadeMembers(ms: seq<Member>)
    ensures KeysAscend(MakeObject(ms).members) && |MakeObject(ms).members| <= |ms|
    ensures forall m :: m in MakeObject(ms).members ==> m in ms
  {
    var sorted := Sort(ms, ByKey);
    ByKeyWeakOrder();
    SortSorted(ms, ByKey);
    DropAscends(sorted);
    RepeatsOnlyGo(sorted);
    forall m | m in sorted ensures m in ms {
      assert m in multiset(sorted);
      assert m in multiset(ms);
    }
  }

  lemma FirstIs(ms: seq<Member>, key: Text)
    ensures FirstWithKey(ms, key).Some? ==> FirstWithKey(ms, key).value in ms && FirstWithKey(ms, key).value.key == key
  {
  }

  lemma {:induction false} FirstOfDistinct(ms: seq<Member>, i: nat)
    requires i < |ms| && DistinctKeys(ms)
    ensures FirstWithKey(ms, ms[i].key) == Some(ms[i])
  {
    if i > 0 {
      assert ms[0].key != ms[i].key;
      assert DistinctKeys(ms[1..]);
      FirstOfDistinct(ms[1..], i - 1);
    }
  }

  /** Every member of an object built from distinct keys is found again. */
  lemma FieldMade(ms: seq<Member>, i: nat)
    requires i < |ms| && DistinctKeys(ms)
    ensures FieldOf(MakeObject(ms), ms[i].key) == Some(ms[i].value)
    ensures ms[i] in MakeObject(ms).members
  {
    hide Find, FirstWithKey, DropRepeats, DistinctKeys;
    var made := MakeObject(ms).members;
    FirstOfDistinct(ms, i);
    MakeObjectCanonical(ms, ms[i].key);
    FirstIs(made, ms[i].key);
    FindExact(made, ms[i].key, ms[i].value);
  }

  /** What the codecs build: short member names over values that fit. */
  predicate SmallMembers(ms: seq<Member>, depth: nat, size: nat) {
    && |ms| <= 16 && depth < SNAPSHOT_LIMITS.maxDepth
    && forall m :: m in ms ==>
         KeyFits(m.key, SNAPSHOT_LIMITS) && |m.key| <= 64 && Fits(m.value, SNAPSHOT_LIMITS, depth + 1)
           && |Emit(m.value)| <= size
  }

  lemma MadeFits(ms: seq<Member>, depth: nat, size: nat)
    requires SmallMembers(ms, depth, size)
    ensures Fits(MakeObject(ms), SNAPSHOT_LIMITS, depth)
  {
    MadeMembers(ms);
  }

  lemma KeySize(key: Text)
    requires |key| <= 64
    ensures |EmitKey(key)| <= 66
  {
    VarintShort(|key|, 1);
  }

  lemma {:induction false} MembersSize(ms: seq<Member>, size: nat)
    requires forall m :: m in ms ==> |m.key| <= 64 && |Emit(m.value)| <= size
    ensures |EmitMembers(ms)| <= |ms| * (size + 66)
  {
    hide Emit, EmitKey;
    if ms != [] {
      assert ms == [ms[0]] + ms[1..];
      KeySize(ms[0].key);
      MembersSize(ms[1..], size);
      assert |EmitMembers(ms)| == |EmitKey(ms[0].key)| + |Emit(ms[0].value)| + |EmitMembers(ms[1..])|;
      OneMore(|ms|, size + 66);
    }
  }

  lemma OneMore(n: nat, c: nat)
    requires n > 0
    ensures n * c == (n - 1) * c + c
  {
  }

  lemma AtMost(n: nat, m: nat, c: nat)
    requires n <= m
    ensures n * c <= m * c
  {
  }

  lemma MadeSize(ms: seq<Member>, depth: nat, size: nat)
    requires SmallMembers(ms, depth, size)
    ensures |Emit(MakeObject(ms))| <= 16 * (size + 66) + 2
  {
    hide EmitMembers, MakeObject, Fits, KeyFits;
    MadeIsObject(ms);
    MadeMembers(ms);
    var made := MakeObject(ms).members;
    MembersSize(made, size);
    AtMost(|made|, 16, size + 66);
    VarintShort(|made|, 1);
  }

  lemma MadeIsObject(ms: seq<Member>)
    ensures MakeObject(ms).Object?
  {
  }

  /** A document of small members reads back and is far below the record bound. */
  lemma DocumentReadsBack(ms: seq<Member>, size: nat)
    requires SmallMembers(ms, 0, size) && size <= 0x2_0000
    ensures DecodeDocument(EncodeDocument(MakeObject(ms))) == Ok(MakeObject(ms))
    ensures |EncodeDocument(MakeObject(ms))| <= 16 * (size + 66) + 2
  {
    hide MakeObject, Fits, Emit, Nodes, SmallMembers;
    var v := MakeObject(ms);
    MadeFits(ms, 0, size);
    MadeSize(ms, 0, size);
    FitsIsEncodable(v, SNAPSHOT_LIMITS, 0);
    NodesWithinBytes(v);
    AcceptedIffEncoded(EncodeDocument(v), SNAPSHOT_LIMITS, v);
  }

  /** A written object has at least its tag and its count. */
  lemma ReadsAtLeastTwo(ms: seq<Member>)
    requires DecodeDocument(EncodeDocument(MakeObject(ms))).Ok?
    ensures |EncodeDocument(MakeObject(ms))| >= 2
  {
    hide DropRepeats, EmitMembers, DecodeDocument;
    MadeIsObject(ms);
    NothingReads();
  }

  lemma SmallNumber(name: string, n: int, depth: nat)
    requires 1 <= |name| <= 64 && depth <= 23 && -0x8000_0000_0000_0000 <= n < 0x8000_0000_0000_0000
    ensures var m := Member(Ascii(name), Integer(n));
      KeyFits(m.key, SNAPSHOT_LIMITS) && |m.key| <= 64 && Fits(m.value, SNAPSHOT_LIMITS, depth) && |Emit(m.value)| <= 11
  {
    AsciiIsUtf8(Ascii(name));
    WordShort(Varint.ZigZag(n));
  }

  lemma SmallLabel(name: string, t: Text, depth: nat)
    requires 1 <= |name| <= 64 && depth <= 23 && Utf8.Valid(t) && |t| <= 512
    ensures var m := Label(name, t);
      KeyFits(m.key, SNAPSHOT_LIMITS) && |m.key| <= 64 && Fits(m.value, SNAPSHOT_LIMITS, depth)
        && |Emit(m.value)| <= 523
  {
    AsciiIsUtf8(Ascii(name));
    WordShort(|t|);
  }

  // ----- When a document reads back -----

  /** Keys ascend in every object inside, as `Value::object` leaves them. */
  predicate InKeyOrder(v: Value) {
    match v
    case Array(es) => forall e :: e in es ==> InKeyOrder(e)
    case Object(ms) => KeysAscend(ms) && forall m :: m in ms ==> InKeyOrder(m.value)
    case _ => true
  }

  /** Lengths, counts and depth are within the limits. */
  predicate SizeFits(v: Value, lim: Limits, depth: nat) {
    && depth <= lim.maxDepth
    && match v
       case String(t) => |t| <= lim.maxStringBytes
       case Binary(bytes) => |bytes| <= lim.maxBinaryBytes
       case Array(es) => |es| <= lim.maxElements && forall e :: e in es ==> SizeFits(e, lim, depth + 1)
       case Object(ms) =>
         && |ms| <= lim.maxObjectFields
         && forall m :: m in ms ==> |m.key| <= lim.maxStringBytes && SizeFits(m.value, lim, depth + 1)
       case _ => true
  }

  /** The snapshot reader takes a document of this size. */
  predicate InLimits(v: Value) {
    && SizeFits(v, SNAPSHOT_LIMITS, 0) && Nodes(v) <= SNAPSHOT_LIMITS.maxNodes
    && |Emit(v)| <= SNAPSHOT_LIMITS.maxDocumentBytes
  }

  lemma {:induction false} FitsParts(v: Value, lim: Limits, depth: nat)
    ensures Fits(v, lim, depth) <==> Encodable(v) && InKeyOrder(v) && SizeFits(v, lim, depth)
  {
    match v
    case Array(es) =>
      forall e | e in es
        ensures Fits(e, lim, depth + 1) <==> Encodable(e) && InKeyOrder(e) && SizeFits(e, lim, depth + 1)
      {
        FitsParts(e, lim, depth + 1);
      }
    case Object(ms) =>
      forall m | m in ms
        ensures Fits(m.value, lim, depth + 1) <==>
                Encodable(m.value) && InKeyOrder(m.value) && SizeFits(m.value, lim, depth + 1)
      {
        FitsParts(m.value, lim, depth + 1);
      }
    case _ =>
  }

  const MOST: U64 := 0xFFFF_FFFF_FFFF_FFFF
  const WIDEST := Limits(MOST, MOST, MOST, MOST, MOST, MOST, MOST)

  lemma {:induction false} ElementSize(es: seq<Value>, i: nat)
    requires i < |es| && forall e :: e in es ==> Encodable(e)
    ensures |Emit(es[i])| <= |EmitElements(es)| && |es| <= |EmitElements(es)|
  {
    hide Encodable;
    NodesWithinBytes(es[0]);
    if |es| > 1 {
      assert es == [es[0]] + es[1..];
      ElementSize(es[1..], if i == 0 then 0 else i - 1);
    }
  }

  lemma {:induction false} MemberSize(ms: seq<Member>, i: nat)
    requires i < |ms| && forall m :: m in ms ==> m.key != [] && Utf8.Valid(m.key) && Encodable(m.value)
    ensures |Emit(ms[i].value)| + |ms[i].key| <= |EmitMembers(ms)| && |ms| <= |EmitMembers(ms)|
  {
    hide Encodable, Utf8.Valid;
    NodesWithinBytes(ms[0].value);
    if |ms| > 1 {
      assert ms == [ms[0]] + ms[1..];
      MemberSize(ms[1..], if i == 0 then 0 else i - 1);
    }
  }

  /** Nothing inside a document is longer than its encoding. */
  lemma {:induction false} WithinBytes(v: Value, depth: nat)
    requires Encodable(v) && |Emit(v)| + depth <= 0x1_0000_0000_0000
    ensures SizeFits(v, WIDEST, depth)
  {
    match v
    case Array(es) =>
      forall i | 0 <= i < |es| ensures SizeFits(es[i], WIDEST, depth + 1) {
        ElementSize(es, i);
        WithinBytes(es[i], depth + 1);
      }
      if es != [] {
        ElementSize(es, 0);
      }
    case Object(ms) =>
      forall i | 0 <= i < |ms| ensures |ms[i].key| <= MOST && SizeFits(ms[i].value, WIDEST, depth + 1) {
        MemberSize(ms, i);
        WithinBytes(ms[i].value, depth + 1);
      }
      if ms != [] {
        MemberSize(ms, 0);
      }
    case _ =>
  }

  lemma ReadsWidest(v: Value)
    requires Encodable(v) && InKeyOrder(v) && |Emit(v)| <= 0x1_0000_0000
    ensures ReadDocument(Emit(v), WIDEST) == Ok(v)
  {
    hide Emit, Encodable, InKeyOrder, SizeFits, Nodes, ReadDocument, Fits;
    WithinBytes(v, 0);
    FitsParts(v, WIDEST, 0);
    NodesWithinBytes(v);
    AcceptedIffEncoded(Emit(v), WIDEST, v);
  }

  /** A written document reads back exactly when it has an encoding and fits the limits; otherwise nothing is read. */
  lemma DocumentReadsExactly(v: Value)
    requires InKeyOrder(v) && |EncodeDocument(v)| <= 0x1_0000_0000
    ensures DecodeDocument(EncodeDocument(v)) == Ok(v) <==> Encodable(v) && InLimits(v)
    ensures DecodeDocument(EncodeDocument(v)).Ok? <==> Encodable(v) && InLimits(v)
  {
    hide Emit, Encodable, InKeyOrder, SizeFits, Nodes, ReadDocument, Fits;
    NothingReads();
    var data := EncodeDocument(v);
    if Encodable(v) {
      FitsParts(v, SNAPSHOT_LIMITS, 0);
      AcceptedIffEncoded(data, SNAPSHOT_LIMITS, v);
      ReadsWidest(v);
      if DecodeDocument(data).Ok? {
        var w := DecodeDocument(data).value;
        AcceptedIffEncoded(data, SNAPSHOT_LIMITS, w);
        FitsParts(w, SNAPSHOT_LIMITS, 0);
        ReadsWidest(w);
      }
    }
  }

  lemma NothingReads()
    ensures DecodeDocument([]).Err?
  {
  }

  // ----- Members and how they are read -----

  /** Every member has a name of its own. */
  predicate Named(ms: seq<Member>) {
    DistinctKeys(ms) && forall m :: m in ms ==> m.key != [] && Utf8.Valid(m.key)
  }

  lemma {:induction false} LessAt(s: Text, t: Text, k: nat)
    requires k <= |s| && k < |t| && s[..k] == t[..k] && (k == |s| || s[k] < t[k])
    ensures TextLess(s, t)
  {
    if k > 0 {
      assert s[..k][0] == t[..k][0];
      assert s[1..][..k - 1] == s[..k][1..] && t[1..][..k - 1] == t[..k][1..];
      LessAt(s[1..], t[1..], k - 1);
    }
  }

  lemma PrecedesLess(a: string, b: string, k: nat)
    requires Precedes(a, b, k)
    ensures TextLess(Ascii(a), Ascii(b)) && b != ""
  {
    var s, t := Ascii(a), Ascii(b);
    forall i | 0 <= i < k ensures s[i] == t[i] {
      assert a[..k][i] == b[..k][i];
      assert a[i] == b[i];
    }
    assert s[..k] == t[..k];
    LessAt(s, t, k);
  }

  lemma {:induction false} NamesAscend(names: seq<string>, splits: seq<nat>, i: nat, j: nat)
    requires Alphabetical(names, splits) && i < j < |names|
    ensures TextLess(Ascii(names[i]), Ascii(names[j]))
  {
    hide TextLess, Precedes;
    PrecedesLess(names[j - 1], names[j], splits[j - 1]);
    if i < j - 1 {
      NamesAscend(names, splits, i, j - 1);
      TextLessTransitive(Ascii(names[i]), Ascii(names[j - 1]), Ascii(names[j]));
    }
  }

  /** Members under alphabetical names. */
  lemma NamedInOrder(ms: seq<Member>, names: seq<string>, splits: seq<nat>)
    requires Alphabetical(names, splits)
    requires |ms| == |names| && forall i :: 0 <= i < |ms| ==> ms[i].key == Ascii(names[i])
    ensures Named(ms)
  {
    hide TextLess, Precedes;
    forall i, j | 0 <= i < j < |ms| ensures ms[i].key != ms[j].key {
      NamesAscend(names, splits, i, j);
      TextLessTotal(ms[i].key, ms[j].key);
    }
    forall m | m in ms ensures m.key != [] && Utf8.Valid(m.key) {
      var i :| 0 <= i < |ms| && ms[i] == m;
      if i > 0 {
        PrecedesLess(names[i - 1], names[i], splits[i - 1]);
      }
      AsciiIsUtf8(ms[i].key);
    }
  }

  /** Numbers and flags always have an encoding. */
  predicate Plain(v: Value) { v.Integer? || v.Unsigned? || v.Boolean? || (v.Real? && !IsNaN(v.bits)) }

  /** An object has an encoding exactly when its members do, and only those at `parts` are in question. */
  lemma MadeShape(ms: seq<Member>, parts: seq<nat>)
    requires Named(ms) && forall k :: 0 <= k < |parts| ==> parts[k] < |ms|
    requires forall i :: 0 <= i < |ms| ==> Plain(ms[i].value) || i in parts
    ensures Encodable(MakeObject(ms)) <==> forall k :: 0 <= k < |parts| ==> Encodable(ms[parts[k]].value)
    ensures (forall k :: 0 <= k < |parts| ==> InKeyOrder(ms[parts[k]].value)) ==> InKeyOrder(MakeObject(ms))
  {
    hide MakeObject, DistinctKeys, FieldOf, Plain;
    MadeIsObject(ms);
    MadeMembers(ms);
    forall i | 0 <= i < |ms|
      ensures ms[i] in MakeObject(ms).members
      ensures i in parts || (Encodable(ms[i].value) && InKeyOrder(ms[i].value))
    {
      FieldMade(ms, i);
      if i !in parts {
        PlainShape(ms[i].value);
      }
    }
    forall m | m in MakeObject(ms).members ensures exists i :: 0 <= i < |ms| && ms[i] == m {
      assert m in ms;
    }
  }

  lemma PlainShape(v: Value)
    requires Plain(v)
    ensures Encodable(v) && InKeyOrder(v)
  {
  }

  // ----- Reading members back -----

  lemma PartRead(ms: seq<Member>, i: nat, name: string, value: Value)
    requires i < |ms| && Named(ms) && ms[i] == Member(Ascii(name), value)
    ensures FieldOf(MakeObject(ms), Ascii(name)) == Some(value)
  {
    hide MakeObject, DistinctKeys, FieldOf;
    FieldMade(ms, i);
  }

  /** A counter comes back as stored, or as its default once it has outgrown 63 bits. */
  lemma CounterRead(ms: seq<Member>, i: nat, name: string, n: nat, fallback: nat)
    requires i < |ms| && Named(ms) && ms[i] == Counter(name, n) && fallback <= 1
    ensures GetInteger(MakeObject(ms), Ascii(name)) == Ok(Cast(n))
    ensures UnsignedOr(MakeObject(ms), Ascii(name), fallback) == n <==> Storable(n)
    ensures Storable(n) ==> GetUnsigned(MakeObject(ms), Ascii(name)) == Ok(n)
    ensures n < 0x1_0000_0000_0000_0000 && !Storable(n) ==> GetUnsigned(MakeObject(ms), Ascii(name)).Err?
  {
    hide MakeObject, Named, FieldOf;
    PartRead(ms, i, name, Integer(Cast(n)));
    CastExact(n);
  }

  lemma BoundedRead(ms: seq<Member>, i: nat, name: string, n: nat, most: nat)
    requires i < |ms| && Named(ms) && ms[i] == Counter(name, n) && n <= most && Storable(n)
    ensures GetAtMost(MakeObject(ms), Ascii(name), most) == Ok(n)
  {
    hide MakeObject, Named, FieldOf, GetUnsigned;
    CounterRead(ms, i, name, n, 0);
  }

  lemma SignedRead(ms: seq<Member>, i: nat, name: string, n: int)
    requires i < |ms| && Named(ms) && ms[i] == Counter(name, n) && Storable(n)
    ensures GetInteger(MakeObject(ms), Ascii(name)) == Ok(n)
    ensures IntegerOr(MakeObject(ms), Ascii(name), 0) == n
  {
    hide MakeObject, Named, FieldOf;
    PartRead(ms, i, name, Integer(Cast(n)));
    CastExact(n);
  }

  lemma LabelRead(ms: seq<Member>, i: nat, name: string, t: Text)
    requires i < |ms| && Named(ms) && ms[i] == Label(name, t)
    ensures GetText(MakeObject(ms), Ascii(name)) == Ok(t)
    ensures TextOr(MakeObject(ms), Ascii(name), []) == t
  {
    hide MakeObject, Named, FieldOf;
    PartRead(ms, i, name, String(t));
  }

  lemma FlagRead(ms: seq<Member>, i: nat, name: string, b: bool)
    requires i < |ms| && Named(ms) && ms[i] == Flag(name, b)
    ensures GetBoolean(MakeObject(ms), Ascii(name)) == Ok(b)
    ensures BooleanOr(MakeObject(ms), Ascii(name), true) == b
  {
    hide MakeObject, Named, FieldOf;
    PartRead(ms, i, name, Boolean(b));
  }

  lemma NumberRead(ms: seq<Member>, i: nat, name: string, x: real, d: Doubles)
    requires i < |ms| && Named(ms) && ms[i] == Number(name, x, d) && Exact(d, x)
    ensures GetFinite(MakeObject(ms), Ascii(name), d) == Ok(x)
  {
    hide MakeObject, Named, FieldOf;
    PartRead(ms, i, name, Real(d.bits(x)));
  }

  lemma ListRead(ms: seq<Member>, i: nat, name: string, es: seq<Value>)
    requires i < |ms| && Named(ms) && ms[i] == Member(Ascii(name), Array(es))
    ensures GetArray(MakeObject(ms), Ascii(name)) == Ok(es)
  {
    hide MakeObject, Named, FieldOf;
    PartRead(ms, i, name, Array(es));
  }

  lemma WideRead(ms: seq<Member>, i: nat, name: string, n: U64)
    requires i < |ms| && Named(ms) && ms[i] == Wide(name, n)
    ensures GetUnsignedField(MakeObject(ms), Ascii(name)) == Ok(n)
  {
    hide MakeObject, Named, FieldOf;
    PartRead(ms, i, name, Unsigned(n));
  }

  // ----- Arrays -----

  function EncodeAll<T>(xs: seq<T>, encode: T -> Value): seq<Value> {
    seq(|xs|, i requires 0 <= i < |xs| => encode(xs[i]))
  }

  /** get_record_array: the first entry that does not decode fails the array. */
  function DecodeAll<T>(es: seq<Value>, decode: Value -> Result<T>): Result<seq<T>> {
    if es == [] then Ok([])
    else
      var front :- DecodeAll(es[..|es| - 1], decode);
      var x :- decode(es[|es| - 1]);
      Ok(front + [x])
  }

  /** Every entry reads back when its ranges are met, and is refused when they are not. */
  ghost predicate Faithful<T(!new)>(xs: seq<T>, encode: T -> Value, decode: Value -> Result<T>, ranges: T -> bool) {
    forall x :: x in xs ==>
      (ranges(x) ==> decode(encode(x)) == Ok(x)) && (!ranges(x) ==> decode(encode(x)).Err?)
  }

  lemma {:induction false} AllRead<T(!new)>(xs: seq<T>, encode: T -> Value, decode: Value -> Result<T>,
                                            ranges: T -> bool)
    requires Faithful(xs, encode, decode, ranges)
    ensures (forall x :: x in xs ==> ranges(x)) ==> DecodeAll(EncodeAll(xs, encode), decode) == Ok(xs)
    ensures (exists x :: x in xs && !ranges(x)) ==> DecodeAll(EncodeAll(xs, encode), decode).Err?
  {
    if xs != [] {
      var front, x := xs[..|xs| - 1], xs[|xs| - 1];
      assert xs == front + [x];
      AllRead(front, encode, decode, ranges);
      assert EncodeAll(xs, encode)[..|xs| - 1] == EncodeAll(front, encode);
    }
  }

  lemma AllShape<T(!new)>(xs: seq<T>, encode: T -> Value, texts: T -> bool)
    requires forall x :: x in xs ==> InKeyOrder(encode(x)) && (Encodable(encode(x)) <==> texts(x))
    ensures InKeyOrder(Array(EncodeAll(xs, encode)))
    ensures Encodable(Array(EncodeAll(xs, encode))) <==> forall x :: x in xs ==> texts(x)
  {
    var es := EncodeAll(xs, encode);
    forall e | e in es ensures InKeyOrder(e) {
      var i :| 0 <= i < |es| && es[i] == e;
    }
    forall x | x in xs ensures encode(x) in es {
      var i :| 0 <= i < |xs| && xs[i] == x;
      assert es[i] == encode(x);
    }
    if forall x :: x in xs ==> texts(x) {
      forall e | e in es ensures Encodable(e) {
        var i :| 0 <= i < |es| && es[i] == e;
      }
    }
  }
}
