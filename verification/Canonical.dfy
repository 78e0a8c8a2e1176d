/** The canonical document format of src/canonical.cpp as functions. */
module Canonical {
  // What the writer emits, what the reader accepts, and why the two are inverse to each other.

  import opened Bytes
  import opened Ordering
  import Varint
  import Utf8

  /** Reals are 64-bit patterns, because they are compared and encoded bit-exactly. */
  datatype Value =
    | Null
    | Boolean(b: bool)
    | Integer(i: I64)
    | Unsigned(u: U64)
    | Real(bits: U64)
    | String(text: Text)
    | Binary(bytes: seq<Byte>)
    | Array(elements: seq<Value>)
    | Object(members: seq<Member>)

  datatype Member = Member(key: Text, value: Value)

  datatype Limits = Limits(
    maxDocumentBytes: U64,
    maxStringBytes: U64,
    maxBinaryBytes: U64,
    maxElements: U64,
    maxObjectFields: U64,
    maxDepth: U64,
    maxNodes: U64)

  const TAG_NULL: Byte := 0x00
  const TAG_FALSE: Byte := 0x01
  const TAG_TRUE: Byte := 0x02
  const TAG_INTEGER: Byte := 0x03
  const TAG_REAL: Byte := 0x04
  const TAG_TEXT: Byte := 0x05
  const TAG_BINARY: Byte := 0x06
  const TAG_ARRAY: Byte := 0x07
  const TAG_OBJECT: Byte := 0x08
  const TAG_UNSIGNED: Byte := 0x09

  /** IEEE 754: exponent all ones and a non-zero fraction. */
  predicate IsNaN(bits: U64) {
    bits / 0x10_0000_0000_0000 % 0x800 == 0x7FF && bits % 0x10_0000_0000_0000 != 0
  }

  // ----- the writer ---------------------------------------------------------------------

  function EmitText(t: Text): seq<Byte> {
    if Utf8.Valid(t) then [TAG_TEXT] + Varint.Encode(|t|) + t else []
  }

  function EmitKey(key: Text): seq<Byte> {
    if key == [] then [] else EmitText(key)
  }

  /** What `write_value` appends. A value with no canonical form is skipped; every other byte
      is still written. */
  function Emit(v: Value): seq<Byte>
    decreases v, 1
  {
    match v
    case Null => [TAG_NULL]
    case Boolean(b) => [if b then TAG_TRUE else TAG_FALSE]
    case Integer(i) => [TAG_INTEGER] + Varint.Encode(Varint.ZigZag(i))
    case Unsigned(u) => [TAG_UNSIGNED] + Varint.Encode(u)
    case Real(bits) => if IsNaN(bits) then [] else [TAG_REAL] + LittleEndian(bits, 8)
    case String(t) => EmitText(t)
    case Binary(bytes) => [TAG_BINARY] + Varint.Encode(|bytes|) + bytes
    case Array(es) => [TAG_ARRAY] + Varint.Encode(|es|) + EmitElements(es)
    case Object(ms) => [TAG_OBJECT] + Varint.Encode(|ms|) + EmitMembers(ms)
  }

  function EmitElements(es: seq<Value>): seq<Byte>
    decreases es, 0
  {
    if es == [] then [] else Emit(es[0]) + EmitElements(es[1..])
  }

  function EmitMembers(ms: seq<Member>): seq<Byte>
    decreases ms, 0
  {
    if ms == [] then []
    else EmitKey(ms[0].key) + Emit(ms[0].value) + EmitMembers(ms[1..])
  }

  /** No NaN, no ill-formed text and no empty key anywhere: `failed()` stays false. */
  predicate Encodable(v: Value) {
    match v
    case Real(bits) => !IsNaN(bits)
    case String(t) => Utf8.Valid(t)
    case Array(es) => forall e :: e in es ==> Encodable(e)
    case Object(ms) => forall m :: m in ms ==> m.key != [] && Utf8.Valid(m.key) && Encodable(m.value)
    case _ => true
  }

  // ----- objects ------------------------------------------------------------------------

  predicate KeysAscend(ms: seq<Member>) {
    forall i, j :: 0 <= i < j < |ms| ==> TextLess(ms[i].key, ms[j].key)
  }

  /** std::lower_bound over the member keys. */
  function LowerBound(ms: seq<Member>, key: Text): (i: nat)
    ensures i <= |ms|
  {
    if ms == [] || !TextLess(ms[0].key, key) then 0 else 1 + LowerBound(ms[1..], key)
  }

  /** `Value::set_unique` on the members of an object. */
  function SetUnique(ms: seq<Member>, key: Text, value: Value): Result<seq<Member>> {
    if key == [] then Err(Malformed)
    else
      var at := LowerBound(ms, key);
      if at < |ms| && ms[at].key == key then Err(Malformed)
      else Ok(ms[..at] + [Member(key, value)] + ms[at..])
  }

  lemma SetUniqueAppends(ms: seq<Member>, key: Text, value: Value)
    requires key != [] && forall m :: m in ms ==> TextLess(m.key, key)
    ensures SetUnique(ms, key, value) == Ok(ms + [Member(key, value)])
  {
    LowerBoundEnd(ms, key);
    assert ms[..|ms|] + [Member(key, value)] + ms[|ms|..] == ms + [Member(key, value)];
  }

  lemma {:induction false} LowerBoundEnd(ms: seq<Member>, key: Text)
    requires forall m :: m in ms ==> TextLess(m.key, key)
    ensures LowerBound(ms, key) == |ms|
  {
    if ms != [] {
      LowerBoundEnd(ms[1..], key);
    }
  }

  // ----- the reader ---------------------------------------------------------------------

  datatype Parsed<+T> = Parsed(value: T, rest: seq<Byte>, nodes: nat)

  /** `over` says that the whole input exceeds the document byte limit. */
  function ReadTag(s: seq<Byte>, over: bool): Result<(Byte, seq<Byte>)> {
    if over then Err(CapacityExceeded)
    else if s == [] then Err(Corrupt)
    else Ok((s[0], s[1..]))
  }

  function ReadLength(s: seq<Byte>, most: U64): (r: Result<(U64, seq<Byte>)>)
    ensures r.Ok? ==> |r.value.1| < |s|
  {
    var (n, rest) :- Varint.Parse(s);
    if n > most then Err(CapacityExceeded) else Ok((n, rest))
  }

  function ReadExact(s: seq<Byte>, n: nat): Result<(seq<Byte>, seq<Byte>)> {
    if n > |s| then Err(Corrupt) else Ok((s[..n], s[n..]))
  }

  function ReadBlock(s: seq<Byte>, most: U64): (r: Result<(seq<Byte>, seq<Byte>)>)
    ensures r.Ok? ==> |r.value.1| < |s|
  {
    var (n, rest) :- ReadLength(s, most);
    ReadExact(rest, n)
  }

  function ReadText(s: seq<Byte>, most: U64): (r: Result<(Text, seq<Byte>)>)
    ensures r.Ok? ==> |r.value.1| < |s|
  {
    var (t, rest) :- ReadBlock(s, most);
    if Utf8.Valid(t) then Ok((t, rest)) else Err(Malformed)
  }

  function ReadInteger(s: seq<Byte>): (r: Result<(Value, seq<Byte>)>)
    ensures r.Ok? ==> |r.value.1| <= |s|
  {
    var (n, rest) :- Varint.Parse(s);
    Ok((Integer(Varint.UnZigZag(n)), rest))
  }

  function ReadUnsigned(s: seq<Byte>): (r: Result<(Value, seq<Byte>)>)
    ensures r.Ok? ==> |r.value.1| <= |s|
  {
    var (n, rest) :- Varint.Parse(s);
    Ok((Unsigned(n), rest))
  }

  function ReadReal(s: seq<Byte>): (r: Result<(Value, seq<Byte>)>)
    ensures r.Ok? ==> |r.value.1| <= |s|
  {
    var (raw, rest) :- ReadExact(s, 8);
    ScaleValues();
    var bits := FromLittleEndian(raw);
    if IsNaN(bits) then Err(Malformed) else Ok((Real(bits), rest))
  }

  function ReadString(s: seq<Byte>, lim: Limits): (r: Result<(Value, seq<Byte>)>)
    ensures r.Ok? ==> |r.value.1| <= |s|
  {
    var (t, rest) :- ReadText(s, lim.maxStringBytes);
    Ok((String(t), rest))
  }

  function ReadBinary(s: seq<Byte>, lim: Limits): (r: Result<(Value, seq<Byte>)>)
    ensures r.Ok? ==> |r.value.1| <= |s|
  {
    var (bytes, rest) :- ReadBlock(s, lim.maxBinaryBytes);
    Ok((Binary(bytes), rest))
  }

  /** The scalar cases of `read_value_at_depth`, after the tag. */
  function ReadScalar(tag: Byte, s: seq<Byte>, lim: Limits): (r: Result<(Value, seq<Byte>)>)
    ensures r.Ok? ==> |r.value.1| <= |s|
  {
    if tag == TAG_NULL then Ok((Null, s))
    else if tag == TAG_FALSE then Ok((Boolean(false), s))
    else if tag == TAG_TRUE then Ok((Boolean(true), s))
    else if tag == TAG_INTEGER then ReadInteger(s)
    else if tag == TAG_UNSIGNED then ReadUnsigned(s)
    else if tag == TAG_REAL then ReadReal(s)
    else if tag == TAG_TEXT then ReadString(s, lim)
    else if tag == TAG_BINARY then ReadBinary(s, lim)
    else Err(Malformed)
  }

  /** One object key with its own node, tag and order checks. */
  function ReadKey(s: seq<Byte>, over: bool, lim: Limits, nodes: nat, previous: Option<Text>):
    (r: Result<Parsed<Text>>)
    ensures r.Ok? ==> |r.value.rest| < |s|
  {
    if nodes >= lim.maxNodes then Err(CapacityExceeded)
    else
      var (tag, afterTag) :- ReadTag(s, over);
      if tag != TAG_TEXT then Err(Malformed)
      else
        var (key, rest) :- ReadText(afterTag, lim.maxStringBytes);
        if key == [] then Err(Malformed)
        else if previous.Some? && !TextLess(previous.value, key) then Err(Malformed)
        else Ok(Parsed(key, rest, nodes + 1))
  }

  function ReadValue(s: seq<Byte>, over: bool, lim: Limits, depth: nat, nodes: nat): (r: Result<Parsed<Value>>)
    ensures r.Ok? ==> |r.value.rest| < |s|
    decreases |s|, 0
  {
    if depth > lim.maxDepth then Err(CapacityExceeded)
    else if nodes >= lim.maxNodes then Err(CapacityExceeded)
    else
      var (tag, s1) :- ReadTag(s, over);
      if tag == TAG_ARRAY then ReadArray(s1, over, lim, depth, nodes + 1)
      else if tag == TAG_OBJECT then ReadObject(s1, over, lim, depth, nodes + 1)
      else
        var (v, rest) :- ReadScalar(tag, s1, lim);
        Ok(Parsed(v, rest, nodes + 1))
  }

  function ReadArray(s: seq<Byte>, over: bool, lim: Limits, depth: nat, nodes: nat): (r: Result<Parsed<Value>>)
    ensures r.Ok? ==> |r.value.rest| <= |s|
    decreases |s|, 0
  {
    var (count, body) :- ReadLength(s, lim.maxElements);
    var p :- ReadElements(body, over, lim, depth + 1, nodes, count);
    Ok(Parsed(Array(p.value), p.rest, p.nodes))
  }

  function ReadObject(s: seq<Byte>, over: bool, lim: Limits, depth: nat, nodes: nat): (r: Result<Parsed<Value>>)
    ensures r.Ok? ==> |r.value.rest| <= |s|
    decreases |s|, 0
  {
    var (count, body) :- ReadLength(s, lim.maxObjectFields);
    var p :- ReadMembers(body, over, lim, depth + 1, nodes, count, [], None);
    Ok(Parsed(Object(p.value), p.rest, p.nodes))
  }

  function ReadElements(s: seq<Byte>, over: bool, lim: Limits, depth: nat, nodes: nat, count: nat):
    (r: Result<Parsed<seq<Value>>>)
    ensures r.Ok? ==> |r.value.rest| <= |s|
    decreases |s|, count + 1
  {
    if count == 0 then Ok(Parsed([], s, nodes))
    else
      var p :- ReadValue(s, over, lim, depth, nodes);
      var q :- ReadElements(p.rest, over, lim, depth, p.nodes, count - 1);
      Ok(Parsed([p.value] + q.value, q.rest, q.nodes))
  }

  /** `built` holds the members already inserted, `previous` the last key read. */
  function ReadMembers(s: seq<Byte>, over: bool, lim: Limits, depth: nat, nodes: nat, count: nat,
                       built: seq<Member>, previous: Option<Text>): (r: Result<Parsed<seq<Member>>>)
    ensures r.Ok? ==> |r.value.rest| <= |s|
    decreases |s|, count + 1
  {
    if count == 0 then Ok(Parsed(built, s, nodes))
    else
      var k :- ReadKey(s, over, lim, nodes, previous);
      var p :- ReadValue(k.rest, over, lim, depth, k.nodes);
      var grown :- SetUnique(built, k.value, p.value);
      ReadMembers(p.rest, over, lim, depth, p.nodes, count - 1, grown, Some(k.value))
  }

  function ReadDocument(data: seq<Byte>, lim: Limits): Result<Value> {
    var p :- ReadValue(data, |data| > lim.maxDocumentBytes, lim, 0, 0);
    if p.rest == [] then Ok(p.value) else Err(Malformed)
  }

  // ----- well-formed values within the limits ------------------------------------------

  /** Values, plus one for every object key. */
  function Nodes(v: Value): (n: nat)
    ensures n >= 1
    decreases v, 1
  {
    match v
    case Array(es) => 1 + ElementNodes(es)
    case Object(ms) => 1 + MemberNodes(ms)
    case _ => 1
  }

  function ElementNodes(es: seq<Value>): nat
    decreases es, 0
  {
    if es == [] then 0 else Nodes(es[0]) + ElementNodes(es[1..])
  }

  function MemberNodes(ms: seq<Member>): nat
    decreases ms, 0
  {
    if ms == [] then 0 else 1 + Nodes(ms[0].value) + MemberNodes(ms[1..])
  }

  predicate KeyFits(key: Text, lim: Limits) {
    key != [] && Utf8.Valid(key) && |key| <= lim.maxStringBytes
  }

  /** Well-formed, and inside the size and depth limits when it sits at `depth`. */
  predicate Fits(v: Value, lim: Limits, depth: nat) {
    && depth <= lim.maxDepth
    && match v
       case Real(bits) => !IsNaN(bits)
       case String(t) => Utf8.Valid(t) && |t| <= lim.maxStringBytes
       case Binary(bytes) => |bytes| <= lim.maxBinaryBytes
       case Array(es) =>
         && |es| <= lim.maxElements
         && (forall e :: e in es ==> Fits(e, lim, depth + 1))
       case Object(ms) =>
         && |ms| <= lim.maxObjectFields
         && KeysAscend(ms)
         && (forall m :: m in ms ==> KeyFits(m.key, lim) && Fits(m.value, lim, depth + 1))
       case _ => true
  }

  // ----- soundness: what is accepted is exactly what the writer writes -------------------

  lemma BlockSound(s: seq<Byte>, most: U64)
    requires ReadBlock(s, most).Ok?
    ensures var (t, rest) := ReadBlock(s, most).value;
            s == Varint.Encode(|t|) + t + rest && |t| <= most
  {
    hide Varint.Parse, Varint.Encode;
    Varint.Sound(s);
    var (n, afterLength) := ReadLength(s, most).value;
    assert afterLength == afterLength[..n] + afterLength[n..];
  }

  lemma Join(tag: Byte, a: seq<Byte>, b: seq<Byte>, rest: seq<Byte>)
    ensures [tag] + (a + b + rest) == [tag] + a + b + rest
    ensures [tag] + (a + rest) == [tag] + a + rest
  {
  }

  lemma IntegerSound(s: seq<Byte>)
    requires ReadInteger(s).Ok?
    ensures var (v, rest) := ReadInteger(s).value; [TAG_INTEGER] + s == Emit(v) + rest
  {
    Varint.Sound(s);
    var (n, rest) := Varint.Parse(s).value;
    Varint.ZigZagInverse(0, n);
    Join(TAG_INTEGER, Varint.Encode(n), [], rest);
  }

  lemma UnsignedSound(s: seq<Byte>)
    requires ReadUnsigned(s).Ok?
    ensures var (v, rest) := ReadUnsigned(s).value; [TAG_UNSIGNED] + s == Emit(v) + rest
  {
    Varint.Sound(s);
    var (n, rest) := Varint.Parse(s).value;
    Join(TAG_UNSIGNED, Varint.Encode(n), [], rest);
  }

  lemma RealSound(s: seq<Byte>)
    requires ReadReal(s).Ok?
    ensures var (v, rest) := ReadReal(s).value; [TAG_REAL] + s == Emit(v) + rest
  {
    LittleEndianUnique(s[..8]);
    assert s == s[..8] + s[8..];
    Join(TAG_REAL, s[..8], [], s[8..]);
  }

  lemma StringSound(s: seq<Byte>, lim: Limits)
    requires ReadString(s, lim).Ok?
    ensures var (v, rest) := ReadString(s, lim).value;
            [TAG_TEXT] + s == Emit(v) + rest && |v.text| <= lim.maxStringBytes
  {
    var (t, rest) := ReadBlock(s, lim.maxStringBytes).value;
    BlockSound(s, lim.maxStringBytes);
    Join(TAG_TEXT, Varint.Encode(|t|), t, rest);
  }

  lemma BinarySound(s: seq<Byte>, lim: Limits)
    requires ReadBinary(s, lim).Ok?
    ensures var (v, rest) := ReadBinary(s, lim).value;
            [TAG_BINARY] + s == Emit(v) + rest && |v.bytes| <= lim.maxBinaryBytes
  {
    var (t, rest) := ReadBlock(s, lim.maxBinaryBytes).value;
    BlockSound(s, lim.maxBinaryBytes);
    Join(TAG_BINARY, Varint.Encode(|t|), t, rest);
  }

  lemma ScalarSound(tag: Byte, s: seq<Byte>, lim: Limits)
    requires ReadScalar(tag, s, lim).Ok?
    ensures var (v, rest) := ReadScalar(tag, s, lim).value; [tag] + s == Emit(v) + rest
  {
    if tag == TAG_INTEGER {
      IntegerSound(s);
    } else if tag == TAG_UNSIGNED {
      UnsignedSound(s);
    } else if tag == TAG_REAL {
      RealSound(s);
    } else if tag == TAG_TEXT {
      StringSound(s, lim);
    } else if tag == TAG_BINARY {
      BinarySound(s, lim);
    }
  }

  lemma ScalarFits(tag: Byte, s: seq<Byte>, lim: Limits, depth: nat)
    requires depth <= lim.maxDepth
    requires ReadScalar(tag, s, lim).Ok?
    ensures var v := ReadScalar(tag, s, lim).value.0; Fits(v, lim, depth) && Nodes(v) == 1
  {
    if tag == TAG_TEXT {
      StringSound(s, lim);
    } else if tag == TAG_BINARY {
      BinarySound(s, lim);
    }
  }

  lemma KeySound(s: seq<Byte>, over: bool, lim: Limits, nodes: nat, previous: Option<Text>)
    requires ReadKey(s, over, lim, nodes, previous).Ok?
    ensures var k := ReadKey(s, over, lim, nodes, previous).value;
            s == EmitKey(k.value) + k.rest && KeyFits(k.value, lim) && k.nodes <= lim.maxNodes
  {
    var k := ReadKey(s, over, lim, nodes, previous).value;
    BlockSound(s[1..], lim.maxStringBytes);
    assert s == [TAG_TEXT] + s[1..];
    Join(TAG_TEXT, Varint.Encode(|k.value|), k.value, k.rest);
  }

  lemma ArrayShape(es: seq<Value>, rest: seq<Byte>)
    ensures [TAG_ARRAY] + (Varint.Encode(|es|) + (EmitElements(es) + rest)) == Emit(Array(es)) + rest
    ensures Nodes(Array(es)) == 1 + ElementNodes(es)
  {
    hide Varint.Encode, EmitElements, ElementNodes;
  }

  lemma ObjectShape(ms: seq<Member>, rest: seq<Byte>)
    ensures [TAG_OBJECT] + (Varint.Encode(|ms|) + (EmitMembers(ms) + rest)) == Emit(Object(ms)) + rest
    ensures Nodes(Object(ms)) == 1 + MemberNodes(ms)
  {
    hide Varint.Encode, EmitMembers, MemberNodes;
  }

  lemma ArrayFits(es: seq<Value>, lim: Limits, depth: nat)
    requires depth <= lim.maxDepth && |es| <= lim.maxElements
    requires forall e :: e in es ==> Fits(e, lim, depth + 1)
    ensures Fits(Array(es), lim, depth)
  {
  }

  lemma ObjectFits(ms: seq<Member>, lim: Limits, depth: nat)
    requires depth <= lim.maxDepth && |ms| <= lim.maxObjectFields && KeysAscend(ms)
    requires forall m :: m in ms ==> KeyFits(m.key, lim) && Fits(m.value, lim, depth + 1)
    ensures Fits(Object(ms), lim, depth)
  {
  }

  /** Canonical uniqueness, one value at a time: an accepted input starts with exactly the bytes
      `write_value` produces for the returned value. */
  lemma {:induction false} ReadValueSound(s: seq<Byte>, over: bool, lim: Limits, depth: nat, nodes: nat)
    requires ReadValue(s, over, lim, depth, nodes).Ok?
    ensures var p := ReadValue(s, over, lim, depth, nodes).value;
            && s == Emit(p.value) + p.rest
            && Fits(p.value, lim, depth)
            && p.nodes == nodes + Nodes(p.value) <= lim.maxNodes
    decreases |s|, 0
  {
    var tag, s1 := s[0], s[1..];
    assert s == [tag] + s1;
    if tag == TAG_ARRAY {
      ReadArraySound(s1, over, lim, depth, nodes + 1);
    } else if tag == TAG_OBJECT {
      ReadObjectSound(s1, over, lim, depth, nodes + 1);
    } else {
      ScalarSound(tag, s1, lim);
      ScalarFits(tag, s1, lim, depth);
    }
  }

  lemma {:induction false} ReadArraySound(s: seq<Byte>, over: bool, lim: Limits, depth: nat, nodes: nat)
    requires ReadArray(s, over, lim, depth, nodes).Ok? && depth <= lim.maxDepth && 1 <= nodes <= lim.maxNodes
    ensures var p := ReadArray(s, over, lim, depth, nodes).value;
            && [TAG_ARRAY] + s == Emit(p.value) + p.rest
            && Fits(p.value, lim, depth)
            && p.nodes == nodes - 1 + Nodes(p.value) <= lim.maxNodes
    decreases |s|, 0
  {
    var (count, body) := ReadLength(s, lim.maxElements).value;
    Varint.Sound(s);
    ReadElementsSound(body, over, lim, depth + 1, nodes, count);
    var p := ReadElements(body, over, lim, depth + 1, nodes, count).value;
    ArrayShape(p.value, p.rest);
    ArrayFits(p.value, lim, depth);
  }

  lemma {:induction false} ReadObjectSound(s: seq<Byte>, over: bool, lim: Limits, depth: nat, nodes: nat)
    requires ReadObject(s, over, lim, depth, nodes).Ok? && depth <= lim.maxDepth && 1 <= nodes <= lim.maxNodes
    ensures var p := ReadObject(s, over, lim, depth, nodes).value;
            && [TAG_OBJECT] + s == Emit(p.value) + p.rest
            && Fits(p.value, lim, depth)
            && p.nodes == nodes - 1 + Nodes(p.value) <= lim.maxNodes
    decreases |s|, 0
  {
    hide ReadMembers, ReadElements, Fits;
    var (count, body) := ReadLength(s, lim.maxObjectFields).value;
    Varint.Sound(s);
    var ms := ReadMembersSound(body, over, lim, depth + 1, nodes, count, [], None);
    var p := ReadMembers(body, over, lim, depth + 1, nodes, count, [], None).value;
    assert p.value == ms;
    ObjectShape(ms, p.rest);
    ObjectFits(ms, lim, depth);
  }

  lemma {:induction false} ReadElementsSound(s: seq<Byte>, over: bool, lim: Limits, depth: nat, nodes: nat, count: nat)
    requires ReadElements(s, over, lim, depth, nodes, count).Ok? && nodes <= lim.maxNodes
    ensures var p := ReadElements(s, over, lim, depth, nodes, count).value;
            && s == EmitElements(p.value) + p.rest
            && |p.value| == count
            && (forall e :: e in p.value ==> Fits(e, lim, depth))
            && p.nodes == nodes + ElementNodes(p.value) <= lim.maxNodes
    decreases |s|, count + 1
  {
    if count > 0 {
      hide ReadValue, Emit, Fits, Nodes, ReadElements, EmitElements, ElementNodes;
      var p, q := ReadElementsOpens(s, over, lim, depth, nodes, count);
      ReadValueSound(s, over, lim, depth, nodes);
      ReadElementsSound(p.rest, over, lim, depth, p.nodes, count - 1);
      var es := [p.value] + q.value;
      EmitFirstElement(es, q.rest);
      assert es[1..] == q.value;
    }
  }

  lemma ReadElementsOpens(s: seq<Byte>, over: bool, lim: Limits, depth: nat, nodes: nat, count: nat)
    returns (p: Parsed<Value>, q: Parsed<seq<Value>>)
    requires ReadElements(s, over, lim, depth, nodes, count).Ok? && count > 0
    ensures ReadValue(s, over, lim, depth, nodes) == Ok(p) && |p.rest| < |s|
    ensures ReadElements(p.rest, over, lim, depth, p.nodes, count - 1) == Ok(q)
    ensures ReadElements(s, over, lim, depth, nodes, count) == Ok(Parsed([p.value] + q.value, q.rest, q.nodes))
  {
    hide ReadValue;
    p := ReadValue(s, over, lim, depth, nodes).value;
    q := ReadElements(p.rest, over, lim, depth, p.nodes, count - 1).value;
  }

  /** The members of `built` end with the last key read, so every insertion appends. */
  ghost predicate Building(built: seq<Member>, previous: Option<Text>) {
    && (built == [] <==> previous.None?)
    && (built != [] ==> previous == Some(built[|built| - 1].key))
    && KeysAscend(built)
  }

  lemma BuildingGrows(built: seq<Member>, previous: Option<Text>, key: Text, value: Value)
    requires Building(built, previous) && key != []
    requires previous.Some? ==> TextLess(previous.value, key)
    ensures SetUnique(built, key, value) == Ok(built + [Member(key, value)])
    ensures Building(built + [Member(key, value)], Some(key))
  {
    forall m | m in built ensures TextLess(m.key, key) {
      var i :| 0 <= i < |built| && built[i] == m;
      if i < |built| - 1 {
        TextLessTransitive(m.key, built[|built| - 1].key, key);
      }
    }
    SetUniqueAppends(built, key, value);
  }

  /** `p` is what reading members `ms` after `built` leaves behind. */
  ghost predicate MembersRead(s: seq<Byte>, lim: Limits, depth: nat, nodes: nat, built: seq<Member>,
                              ms: seq<Member>, p: Parsed<seq<Member>>)
  {
    && p.value == built + ms
    && s == EmitMembers(ms) + p.rest
    && KeysAscend(p.value)
    && (forall m :: m in ms ==> KeyFits(m.key, lim) && Fits(m.value, lim, depth))
    && p.nodes == nodes + MemberNodes(ms) <= lim.maxNodes
  }

  lemma MembersReadNone(s: seq<Byte>, over: bool, lim: Limits, depth: nat, nodes: nat, built: seq<Member>,
                        previous: Option<Text>)
    requires Building(built, previous) && nodes <= lim.maxNodes
    ensures ReadMembers(s, over, lim, depth, nodes, 0, built, previous).Ok?
    ensures MembersRead(s, lim, depth, nodes, built, [], ReadMembers(s, over, lim, depth, nodes, 0, built,
                                                                     previous).value)
  {
    assert built + [] == built;
  }

  lemma MembersReadCons(s: seq<Byte>, lim: Limits, depth: nat, nodes: nat, built: seq<Member>, m: Member,
                        tail: seq<Member>, afterKey: seq<Byte>, afterValue: seq<Byte>, p: Parsed<seq<Member>>)
    requires s == EmitKey(m.key) + afterKey && KeyFits(m.key, lim)
    requires afterKey == Emit(m.value) + afterValue && Fits(m.value, lim, depth)
    requires MembersRead(afterValue, lim, depth, nodes + 1 + Nodes(m.value), built + [m], tail, p)
    ensures MembersRead(s, lim, depth, nodes, built, [m] + tail, p)
  {
    hide Emit, EmitKey, Fits, KeyFits, KeysAscend;
    assert ([m] + tail)[1..] == tail;
    assert built + [m] + tail == built + ([m] + tail);
    assert s == EmitMembers([m] + tail) + p.rest;
  }

  lemma {:induction false} MemberSound(s: seq<Byte>, over: bool, lim: Limits, depth: nat, nodes: nat,
                                       built: seq<Member>, previous: Option<Text>)
    requires Building(built, previous)
    requires ReadKey(s, over, lim, nodes, previous).Ok?
    requires var k := ReadKey(s, over, lim, nodes, previous).value; ReadValue(k.rest, over, lim, depth, k.nodes).Ok?
    ensures var k := ReadKey(s, over, lim, nodes, previous).value;
            var p := ReadValue(k.rest, over, lim, depth, k.nodes).value;
            && s == EmitKey(k.value) + k.rest && KeyFits(k.value, lim)
            && k.rest == Emit(p.value) + p.rest && Fits(p.value, lim, depth)
            && p.nodes == nodes + 1 + Nodes(p.value) <= lim.maxNodes
            && SetUnique(built, k.value, p.value) == Ok(built + [Member(k.value, p.value)])
            && Building(built + [Member(k.value, p.value)], Some(k.value))
    decreases |s|, 0
  {
    var k := ReadKey(s, over, lim, nodes, previous).value;
    KeySound(s, over, lim, nodes, previous);
    ReadValueSound(k.rest, over, lim, depth, k.nodes);
    BuildingGrows(built, previous, k.value, ReadValue(k.rest, over, lim, depth, k.nodes).value.value);
  }

  lemma {:induction false} ReadMembersSound(s: seq<Byte>, over: bool, lim: Limits, depth: nat, nodes: nat, count: nat,
                                            built: seq<Member>, previous: Option<Text>) returns (ms: seq<Member>)
    requires ReadMembers(s, over, lim, depth, nodes, count, built, previous).Ok? && nodes <= lim.maxNodes
    requires Building(built, previous)
    ensures |ms| == count
    ensures MembersRead(s, lim, depth, nodes, built, ms, ReadMembers(s, over, lim, depth, nodes, count, built,
                                                                     previous).value)
    decreases |s|, count + 1
  {
    hide *;
    if count == 0 {
      ms := [];
      MembersReadNone(s, over, lim, depth, nodes, built, previous);
    } else {
      var p := ReadMembersOpens(s, over, lim, depth, nodes, count, built, previous);
      var k := ReadKey(s, over, lim, nodes, previous).value;
      var m := Member(k.value, p.value);
      MemberSound(s, over, lim, depth, nodes, built, previous);
      var tail := ReadMembersSound(p.rest, over, lim, depth, p.nodes, count - 1, built + [m], Some(k.value));
      ms := [m] + tail;
      MembersReadCons(s, lim, depth, nodes, built, m, tail, k.rest, p.rest,
                      ReadMembers(s, over, lim, depth, nodes, count, built, previous).value);
    }
  }

  lemma ReadMembersOpens(s: seq<Byte>, over: bool, lim: Limits, depth: nat, nodes: nat, count: nat,
                         built: seq<Member>, previous: Option<Text>) returns (p: Parsed<Value>)
    requires ReadMembers(s, over, lim, depth, nodes, count, built, previous).Ok? && count > 0
    ensures ReadKey(s, over, lim, nodes, previous).Ok?
    ensures var k := ReadKey(s, over, lim, nodes, previous).value;
            && ReadValue(k.rest, over, lim, depth, k.nodes) == Ok(p)
            && SetUnique(built, k.value, p.value).Ok?
            && ReadMembers(s, over, lim, depth, nodes, count, built, previous)
            == ReadMembers(p.rest, over, lim, depth, p.nodes, count - 1,
                           SetUnique(built, k.value, p.value).value, Some(k.value))
            && |p.rest| < |s|
  {
    hide ReadKey, ReadValue, SetUnique;
    var k := ReadKey(s, over, lim, nodes, previous).value;
    p := ReadValue(k.rest, over, lim, depth, k.nodes).value;
  }

  // ----- completeness: everything well-formed within the limits is accepted --------------

  lemma BlockComplete(t: seq<Byte>, rest: seq<Byte>, most: U64)
    requires |t| <= most
    ensures ReadBlock(Varint.Encode(|t|) + t + rest, most) == Ok((t, rest))
  {
    hide Varint.Parse, Varint.Encode;
    Varint.Complete(|t|, t + rest);
    assert Varint.Encode(|t|) + t + rest == Varint.Encode(|t|) + (t + rest);
    assert (t + rest)[..|t|] == t && (t + rest)[|t|..] == rest;
  }

  lemma IntegerComplete(i: I64, rest: seq<Byte>)
    ensures ReadInteger(Varint.Encode(Varint.ZigZag(i)) + rest) == Ok((Integer(i), rest))
  {
    Varint.Complete(Varint.ZigZag(i), rest);
    Varint.ZigZagInverse(i, 0);
  }

  lemma RealComplete(bits: U64, rest: seq<Byte>)
    requires !IsNaN(bits)
    ensures ReadReal(LittleEndian(bits, 8) + rest) == Ok((Real(bits), rest))
  {
    ScaleValues();
    LittleEndianRoundTrip(bits, 8);
    assert (LittleEndian(bits, 8) + rest)[..8] == LittleEndian(bits, 8);
  }

  /** The payload of a scalar, after its tag. */
  function ScalarTag(v: Value): Byte
    requires !v.Array? && !v.Object?
  {
    match v
    case Null => TAG_NULL
    case Boolean(b) => if b then TAG_TRUE else TAG_FALSE
    case Integer(_) => TAG_INTEGER
    case Unsigned(_) => TAG_UNSIGNED
    case Real(_) => TAG_REAL
    case String(_) => TAG_TEXT
    case Binary(_) => TAG_BINARY
  }

  function ScalarBody(v: Value): seq<Byte>
    requires !v.Array? && !v.Object?
  {
    match v
    case Null => []
    case Boolean(b) => []
    case Integer(i) => Varint.Encode(Varint.ZigZag(i))
    case Unsigned(u) => Varint.Encode(u)
    case Real(bits) => LittleEndian(bits, 8)
    case String(t) => Varint.Encode(|t|) + t
    case Binary(bytes) => Varint.Encode(|bytes|) + bytes
  }

  lemma ScalarShape(v: Value, rest: seq<Byte>)
    requires Encodable(v) && !v.Array? && !v.Object?
    ensures Emit(v) + rest == [ScalarTag(v)] + (ScalarBody(v) + rest)
  {
    hide Varint.Encode, LittleEndian, Utf8.Valid, IsNaN;
  }

  lemma ScalarComplete(v: Value, rest: seq<Byte>, lim: Limits, depth: nat)
    requires Fits(v, lim, depth) && !v.Array? && !v.Object?
    ensures ReadScalar(ScalarTag(v), ScalarBody(v) + rest, lim) == Ok((v, rest))
  {
    match v
    case Integer(i) => IntegerComplete(i, rest);
    case Unsigned(u) => Varint.Complete(u, rest);
    case Real(bits) => RealComplete(bits, rest);
    case String(t) => BlockComplete(t, rest, lim.maxStringBytes);
    case Binary(bytes) => BlockComplete(bytes, rest, lim.maxBinaryBytes);
    case Null => assert ScalarBody(v) + rest == rest;
    case Boolean(b) => assert ScalarBody(v) + rest == rest;
  }

  lemma KeyComplete(key: Text, rest: seq<Byte>, lim: Limits, nodes: nat, previous: Option<Text>)
    requires KeyFits(key, lim) && nodes < lim.maxNodes
    requires previous.Some? ==> TextLess(previous.value, key)
    ensures ReadKey(EmitKey(key) + rest, false, lim, nodes, previous) == Ok(Parsed(key, rest, nodes + 1))
  {
    BlockComplete(key, rest, lim.maxStringBytes);
    var body := Varint.Encode(|key|) + key + rest;
    assert EmitKey(key) + rest == [TAG_TEXT] + body;
    assert ([TAG_TEXT] + body)[1..] == body;
  }

  /** Round trip and self-delimiting: the bytes of a well-formed value, followed by anything,
      read back to that value and stop exactly at its end. */
  lemma {:induction false} ReadValueComplete(v: Value, rest: seq<Byte>, lim: Limits, depth: nat, nodes: nat)
    requires Fits(v, lim, depth) && nodes + Nodes(v) <= lim.maxNodes
    ensures ReadValue(Emit(v) + rest, false, lim, depth, nodes) == Ok(Parsed(v, rest, nodes + Nodes(v)))
    decreases v, 1
  {
    hide ReadValue, Emit, Fits;
    match v
    case Array(es) => ReadArrayComplete(es, rest, lim, depth, nodes + 1);
    case Object(ms) => ReadObjectComplete(ms, rest, lim, depth, nodes + 1);
    case _ => ReadScalarComplete(v, rest, lim, depth, nodes);
  }

  lemma ReadScalarComplete(v: Value, rest: seq<Byte>, lim: Limits, depth: nat, nodes: nat)
    requires Fits(v, lim, depth) && nodes + Nodes(v) <= lim.maxNodes && !v.Array? && !v.Object?
    ensures ReadValue(Emit(v) + rest, false, lim, depth, nodes) == Ok(Parsed(v, rest, nodes + Nodes(v)))
  {
    hide ReadValue, ReadScalar, ReadArray, ReadObject, Emit, ScalarBody;
    ScalarShape(v, rest);
    ScalarComplete(v, rest, lim, depth);
    ReadTagged(ScalarTag(v), ScalarBody(v) + rest, lim, depth, nodes);
  }

  lemma ReadTagged(tag: Byte, s: seq<Byte>, lim: Limits, depth: nat, nodes: nat)
    requires depth <= lim.maxDepth && nodes < lim.maxNodes
    ensures ReadValue([tag] + s, false, lim, depth, nodes) ==
            if tag == TAG_ARRAY then ReadArray(s, false, lim, depth, nodes + 1)
            else if tag == TAG_OBJECT then ReadObject(s, false, lim, depth, nodes + 1)
            else match ReadScalar(tag, s, lim)
                 case Ok((v, rest)) => Ok(Parsed(v, rest, nodes + 1))
                 case Err(code) => Err(code)
  {
    assert ([tag] + s)[1..] == s;
  }

  lemma {:induction false} ReadArrayComplete(es: seq<Value>, rest: seq<Byte>, lim: Limits, depth: nat, nodes: nat)
    requires Fits(Array(es), lim, depth) && 1 <= nodes && nodes + ElementNodes(es) <= lim.maxNodes
    ensures ReadValue(Emit(Array(es)) + rest, false, lim, depth, nodes - 1)
         == Ok(Parsed(Array(es), rest, nodes + ElementNodes(es)))
    decreases es, 1
  {
    var body := EmitElements(es) + rest;
    ArrayShape(es, rest);
    ReadTagged(TAG_ARRAY, Varint.Encode(|es|) + body, lim, depth, nodes - 1);
    Varint.Complete(|es|, body);
    ReadElementsComplete(es, rest, lim, depth + 1, nodes);
  }

  lemma {:induction false} ReadObjectComplete(ms: seq<Member>, rest: seq<Byte>, lim: Limits, depth: nat, nodes: nat)
    requires Fits(Object(ms), lim, depth) && 1 <= nodes && nodes + MemberNodes(ms) <= lim.maxNodes
    ensures ReadValue(Emit(Object(ms)) + rest, false, lim, depth, nodes - 1)
         == Ok(Parsed(Object(ms), rest, nodes + MemberNodes(ms)))
    decreases ms, 1
  {
    hide ReadValue, ReadMembers, Emit, EmitMembers;
    var body := EmitMembers(ms) + rest;
    ObjectShape(ms, rest);
    ReadTagged(TAG_OBJECT, Varint.Encode(|ms|) + body, lim, depth, nodes - 1);
    Varint.Complete(|ms|, body);
    ReadMembersComplete(ms, rest, lim, depth + 1, nodes, [], None);
    assert [] + ms == ms;
    assert ReadLength(Varint.Encode(|ms|) + body, lim.maxObjectFields) == Ok((|ms|, body));
  }

  lemma {:induction false} ReadElementsComplete(es: seq<Value>, rest: seq<Byte>, lim: Limits, depth: nat, nodes: nat)
    requires (forall e :: e in es ==> Fits(e, lim, depth)) && nodes + ElementNodes(es) <= lim.maxNodes
    ensures ReadElements(EmitElements(es) + rest, false, lim, depth, nodes, |es|)
         == Ok(Parsed(es, rest, nodes + ElementNodes(es)))
    decreases es, 0
  {
    hide *;
    ReadElementsDone(rest, lim, depth, nodes);
    if es == [] {
      assert [] + rest == rest;
    } else {
      var tail := EmitElements(es[1..]) + rest;
      EmitFirstElement(es, rest);
      ReadValueComplete(es[0], tail, lim, depth, nodes);
      ReadElementsComplete(es[1..], rest, lim, depth, nodes + Nodes(es[0]));
      ReadElementsStep(Emit(es[0]) + tail, lim, depth, nodes, |es|, es[0], tail);
      assert es == [es[0]] + es[1..];
    }
  }

  lemma ReadElementsDone(s: seq<Byte>, lim: Limits, depth: nat, nodes: nat)
    ensures ReadElements(s, false, lim, depth, nodes, 0) == Ok(Parsed([], s, nodes))
    ensures EmitElements([]) == [] && ElementNodes([]) == 0
  {
  }

  lemma EmitFirstElement(es: seq<Value>, rest: seq<Byte>)
    requires es != []
    ensures EmitElements(es) + rest == Emit(es[0]) + (EmitElements(es[1..]) + rest)
    ensures ElementNodes(es) == Nodes(es[0]) + ElementNodes(es[1..])
  {
    hide Emit, Nodes;
  }

  lemma ReadElementsStep(s: seq<Byte>, lim: Limits, depth: nat, nodes: nat, count: nat, v: Value, afterValue: seq<Byte>)
    requires count > 0
    requires ReadValue(s, false, lim, depth, nodes) == Ok(Parsed(v, afterValue, nodes + Nodes(v)))
    ensures ReadElements(s, false, lim, depth, nodes, count) ==
            match ReadElements(afterValue, false, lim, depth, nodes + Nodes(v), count - 1)
            case Ok(q) => Ok(Parsed([v] + q.value, q.rest, q.nodes))
            case Err(code) => Err(code)
  {
    hide ReadValue;
  }

  lemma {:induction false} ReadMembersComplete(ms: seq<Member>, rest: seq<Byte>, lim: Limits, depth: nat, nodes: nat,
                                               built: seq<Member>, previous: Option<Text>)
    requires forall m :: m in ms ==> KeyFits(m.key, lim) && Fits(m.value, lim, depth)
    requires nodes + MemberNodes(ms) <= lim.maxNodes
    requires Building(built, previous) && KeysAscend(built + ms)
    ensures ReadMembers(EmitMembers(ms) + rest, false, lim, depth, nodes, |ms|, built, previous)
         == Ok(Parsed(built + ms, rest, nodes + MemberNodes(ms)))
    decreases ms, 0
  {
    hide *;
    if ms == [] {
      EmitNoMembers();
      assert EmitMembers(ms) + rest == rest && built + ms == built;
      ReadMembersDone(rest, lim, depth, nodes, built, previous);
    } else {
      var m, tail := ms[0], EmitMembers(ms[1..]) + rest;
      Rotate(built, ms);
      EmitFirstMember(ms, rest);
      PreviousBelow(built, previous, ms, lim);
      KeyComplete(m.key, Emit(m.value) + tail, lim, nodes, previous);
      ReadValueComplete(m.value, tail, lim, depth, nodes + 1);
      BuildingGrows(built, previous, m.key, m.value);
      ReadMembersComplete(ms[1..], rest, lim, depth, nodes + 1 + Nodes(m.value), built + [m], Some(m.key));
      ReadMembersStep(EmitMembers(ms) + rest, lim, depth, nodes, |ms|, built, previous,
                      m, Emit(m.value) + tail, tail);
    }
  }

  lemma EmitNoMembers()
    ensures EmitMembers([]) == [] && MemberNodes([]) == 0
  {
  }

  lemma EmitFirstMember(ms: seq<Member>, rest: seq<Byte>)
    requires ms != []
    ensures EmitMembers(ms) + rest == EmitKey(ms[0].key) + (Emit(ms[0].value) + (EmitMembers(ms[1..]) + rest))
    ensures MemberNodes(ms) == 1 + Nodes(ms[0].value) + MemberNodes(ms[1..])
  {
    hide Emit, EmitKey, Nodes;
  }

  lemma PreviousBelow(built: seq<Member>, previous: Option<Text>, ms: seq<Member>, lim: Limits)
    requires Building(built, previous) && KeysAscend(built + ms) && ms != [] && KeyFits(ms[0].key, lim)
    ensures ms[0].key != []
    ensures previous.Some? ==> TextLess(previous.value, ms[0].key)
  {
    hide TextLess;
    Rotate(built, ms);
  }

  lemma ReadMembersDone(s: seq<Byte>, lim: Limits, depth: nat, nodes: nat, built: seq<Member>, previous: Option<Text>)
    ensures ReadMembers(s, false, lim, depth, nodes, 0, built, previous) == Ok(Parsed(built, s, nodes))
  {
  }

  lemma Rotate(built: seq<Member>, ms: seq<Member>)
    requires ms != []
    ensures built + [ms[0]] + ms[1..] == built + ms
    ensures KeysAscend(built + ms) && built != [] ==> TextLess(built[|built| - 1].key, ms[0].key)
  {
    assert (built + ms)[|built|] == ms[0];
    assert built != [] ==> (built + ms)[|built| - 1] == built[|built| - 1];
  }

  lemma ReadMembersStep(s: seq<Byte>, lim: Limits, depth: nat, nodes: nat, count: nat, built: seq<Member>,
                        previous: Option<Text>, m: Member, afterKey: seq<Byte>, afterValue: seq<Byte>)
    requires count > 0
    requires ReadKey(s, false, lim, nodes, previous) == Ok(Parsed(m.key, afterKey, nodes + 1))
    requires ReadValue(afterKey, false, lim, depth, nodes + 1)
          == Ok(Parsed(m.value, afterValue, nodes + 1 + Nodes(m.value)))
    requires SetUnique(built, m.key, m.value) == Ok(built + [m])
    ensures ReadMembers(s, false, lim, depth, nodes, count, built, previous)
         == ReadMembers(afterValue, false, lim, depth, nodes + 1 + Nodes(m.value), count - 1, built + [m], Some(m.key))
  {
    hide ReadKey, ReadValue, SetUnique;
  }

  // ----- the main results ----------------------------------------------------------------

  /** The accepted documents and the well-formed values within the limits correspond one to
      one: a document is accepted with value `v` iff it is the encoding of `v`. */
  lemma AcceptedIffEncoded(data: seq<Byte>, lim: Limits, v: Value)
    ensures ReadDocument(data, lim) == Ok(v)
       <==> data == Emit(v) && Fits(v, lim, 0) && Nodes(v) <= lim.maxNodes && |data| <= lim.maxDocumentBytes
  {
    if ReadDocument(data, lim) == Ok(v) {
      ReadValueSound(data, |data| > lim.maxDocumentBytes, lim, 0, 0);
      assert Emit(v) + [] == Emit(v);
    }
    if data == Emit(v) && Fits(v, lim, 0) && Nodes(v) <= lim.maxNodes && |data| <= lim.maxDocumentBytes {
      ReadValueComplete(v, [], lim, 0, 0);
      assert Emit(v) + [] == Emit(v);
    }
  }

  /** No two byte strings decode to one value. */
  lemma NoSecondEncoding(a: seq<Byte>, b: seq<Byte>, lim: Limits)
    requires ReadDocument(a, lim).Ok? && ReadDocument(a, lim) == ReadDocument(b, lim)
    ensures a == b
  {
    AcceptedIffEncoded(a, lim, ReadDocument(a, lim).value);
    AcceptedIffEncoded(b, lim, ReadDocument(a, lim).value);
  }

  /** Nodes built never exceed bytes written (or consumed): the node budget cannot be amplified. */
  lemma {:induction false} NodesWithinBytes(v: Value)
    requires Encodable(v)
    ensures Nodes(v) <= |Emit(v)|
    decreases v, 1
  {
    match v
    case Array(es) => ElementNodesWithinBytes(es);
    case Object(ms) => MemberNodesWithinBytes(ms);
    case _ =>
  }

  lemma {:induction false} ElementNodesWithinBytes(es: seq<Value>)
    requires forall e :: e in es ==> Encodable(e)
    ensures ElementNodes(es) <= |EmitElements(es)|
    decreases es, 0
  {
    if es != [] {
      NodesWithinBytes(es[0]);
      ElementNodesWithinBytes(es[1..]);
    }
  }

  lemma {:induction false} MemberNodesWithinBytes(ms: seq<Member>)
    requires forall m :: m in ms ==> m.key != [] && Utf8.Valid(m.key) && Encodable(m.value)
    ensures MemberNodes(ms) <= |EmitMembers(ms)|
    decreases ms, 0
  {
    if ms != [] {
      NodesWithinBytes(ms[0].value);
      MemberNodesWithinBytes(ms[1..]);
    }
  }

  /** Whatever fits has an encoding. */
  lemma {:induction false} FitsIsEncodable(v: Value, lim: Limits, depth: nat)
    requires Fits(v, lim, depth)
    ensures Encodable(v)
    decreases v
  {
    match v
    case Array(es) =>
      forall e | e in es ensures Encodable(e) { FitsIsEncodable(e, lim, depth + 1); }
    case Object(ms) =>
      forall m | m in ms ensures Encodable(m.value) { FitsIsEncodable(m.value, lim, depth + 1); }
    case _ =>
  }
}
