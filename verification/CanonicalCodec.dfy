/** CanonicalWriter and CanonicalReader of src/canonical.cpp. */
module CanonicalCodec {
  // The writer appends to a buffer, the reader advances a position; both are proved against module Canonical.

  import opened Bytes
  import opened Ordering
  import opened Canonical
  import Varint
  import Utf8

  class CanonicalWriter {
    var buffer: seq<Byte>
    var failed: bool

    constructor ()
      ensures buffer == [] && !failed
    {
      buffer, failed := [], false;
    }

    method AppendByte(b: Byte)
      modifies this
      ensures buffer == old(buffer) + [b] && failed == old(failed)
    {
      buffer := buffer + [b];
    }

    method AppendVarint(n: U64)
      modifies this
      ensures buffer == old(buffer) + Varint.Encode(n) && failed == old(failed)
    {
      buffer := Varint.Append(buffer, n);
    }

    method WriteReal(bits: U64)
      modifies this
      ensures buffer == old(buffer) + Emit(Real(bits))
      ensures failed == (old(failed) || IsNaN(bits))
    {
      if IsNaN(bits) {
        failed := true;
        return;
      }
      hide LittleEndian;
      AppendByte(TAG_REAL);
      var rest: nat, i := bits, 0;
      while i < 8
        invariant 0 <= i <= 8
        invariant buffer + LittleEndian(rest, 8 - i) == old(buffer) + [TAG_REAL] + LittleEndian(bits, 8)
        invariant failed == old(failed)
      {
        NextByte(buffer, rest, 8 - i);
        AppendByte(rest % 256);
        rest := rest / 256;
        i := i + 1;
      }
      RealDone(old(buffer), buffer, rest, bits);
    }

    method WriteText(t: Text)
      requires |t| < 0x1_0000_0000_0000_0000
      modifies this
      ensures buffer == old(buffer) + EmitText(t)
      ensures failed == (old(failed) || !Utf8.Valid(t))
    {
      var ok := Utf8.IsValid(t);
      if !ok {
        failed := true;
        return;
      }
      AppendByte(TAG_TEXT);
      AppendVarint(|t|);
      buffer := buffer + t;
      TextShape(old(buffer), t);
    }

    method WriteField(key: Text)
      requires |key| < 0x1_0000_0000_0000_0000
      modifies this
      ensures buffer == old(buffer) + EmitKey(key)
      ensures failed == (old(failed) || key == [] || !Utf8.Valid(key))
    {
      if key == [] {
        failed := true;
        return;
      }
      WriteText(key);
    }

    /** `write_value`: appends the encoding; `failed` reports a value with no canonical form. */
    method WriteValue(v: Value)
      requires Sized(v)
      modifies this
      ensures buffer == old(buffer) + Emit(v)
      ensures failed == (old(failed) || !Encodable(v))
      decreases v
    {
      hide *;
      match v
      case Real(bits) =>
        RealShape(bits);
        WriteReal(bits);
      case String(t) =>
        SizedText(t);
        StringShape(t);
        WriteText(t);
      case Array(es) => WriteArray(es);
      case Object(ms) => WriteObject(ms);
      case _ => WritePlain(v);
    }

    /** The cases that only append a tag and a payload. */
    method WritePlain(v: Value)
      requires Sized(v) && (v.Null? || v.Boolean? || v.Integer? || v.Unsigned? || v.Binary?)
      modifies this
      ensures buffer == old(buffer) + Emit(v)
      ensures failed == (old(failed) || !Encodable(v))
    {
      hide Emit, Encodable, Varint.Encode, Varint.ZigZag, TAG_NULL, TAG_FALSE, TAG_TRUE, TAG_INTEGER, TAG_UNSIGNED,
           TAG_BINARY;
      match v
      case Null =>
        AppendByte(TAG_NULL);
        NullShape();
      case Boolean(b) =>
        AppendByte(if b then TAG_TRUE else TAG_FALSE);
        BooleanShape(b);
      case Integer(i) =>
        AppendByte(TAG_INTEGER);
        AppendVarint(Varint.ZigZag(i));
        IntegerShape(old(buffer), i);
      case Unsigned(u) =>
        AppendByte(TAG_UNSIGNED);
        AppendVarint(u);
        UnsignedShape(old(buffer), u);
      case Binary(bytes) =>
        AppendByte(TAG_BINARY);
        AppendVarint(|bytes|);
        buffer := buffer + bytes;
        BinaryShape(old(buffer), bytes);
    }

    method WriteArray(es: seq<Value>)
      requires Sized(Array(es))
      modifies this
      ensures buffer == old(buffer) + Emit(Array(es))
      ensures failed == (old(failed) || !Encodable(Array(es)))
      decreases es
    {
      hide Emit, EmitElements, Encodable;
      AppendByte(TAG_ARRAY);
      AppendVarint(|es|);
      ghost var start := buffer;
      for i := 0 to |es|
        invariant start + EmitElements(es) == buffer + EmitElements(es[i..])
        invariant failed == (old(failed) || exists j :: 0 <= j < i && !Encodable(es[j]))
      {
        FirstElement(es, i);
        WriteValue(es[i]);
      }
      ArrayDone(old(buffer), es);
    }

    method WriteObject(ms: seq<Member>)
      requires Sized(Object(ms))
      modifies this
      ensures buffer == old(buffer) + Emit(Object(ms))
      ensures failed == (old(failed) || !Encodable(Object(ms)))
      decreases ms
    {
      hide Emit, EmitMembers, EmitKey, Encodable;
      AppendByte(TAG_OBJECT);
      AppendVarint(|ms|);
      ghost var start := buffer;
      for i := 0 to |ms|
        invariant start + EmitMembers(ms) == buffer + EmitMembers(ms[i..])
        invariant failed == (old(failed) || exists j :: 0 <= j < i && !MemberEncodable(ms[j]))
      {
        FirstMember(ms, i);
        WriteField(ms[i].key);
        WriteValue(ms[i].value);
      }
      ObjectDone(old(buffer), ms);
    }
  }

  lemma NextByte(front: seq<Byte>, n: nat, k: nat)
    requires k > 0
    ensures front + LittleEndian(n, k) == front + [n % 256] + LittleEndian(n / 256, k - 1)
  {
  }

  lemma RealDone(front: seq<Byte>, buffer: seq<Byte>, rest: nat, bits: U64)
    requires !IsNaN(bits)
    requires buffer + LittleEndian(rest, 0) == front + [TAG_REAL] + LittleEndian(bits, 8)
    ensures buffer == front + Emit(Real(bits))
  {
    hide IsNaN;
    assert LittleEndian(rest, 0) == [];
    assert front + Emit(Real(bits)) == front + [TAG_REAL] + LittleEndian(bits, 8) by {
      hide LittleEndian;
    }
  }

  lemma NullShape()
    ensures Emit(Null) == [TAG_NULL] && Encodable(Null)
  {
  }

  lemma BooleanShape(b: bool)
    ensures Emit(Boolean(b)) == [if b then TAG_TRUE else TAG_FALSE] && Encodable(Boolean(b))
  {
  }

  lemma IntegerShape(front: seq<Byte>, i: I64)
    ensures front + [TAG_INTEGER] + Varint.Encode(Varint.ZigZag(i)) == front + Emit(Integer(i))
    ensures Encodable(Integer(i))
  {
    hide Varint.Encode, Varint.ZigZag, EmitElements, EmitMembers, EmitText, LittleEndian, IsNaN;
  }

  lemma UnsignedShape(front: seq<Byte>, u: U64)
    ensures front + [TAG_UNSIGNED] + Varint.Encode(u) == front + Emit(Unsigned(u)) && Encodable(Unsigned(u))
  {
    hide Varint.Encode, EmitElements, EmitMembers, EmitText, LittleEndian, IsNaN;
  }

  lemma BinaryShape(front: seq<Byte>, bytes: seq<Byte>)
    ensures front + [TAG_BINARY] + Varint.Encode(|bytes|) + bytes == front + Emit(Binary(bytes))
    ensures Encodable(Binary(bytes))
  {
    hide Varint.Encode;
    BinaryBytes(bytes);
    hide Emit;
    FourParts(front, [TAG_BINARY], Varint.Encode(|bytes|), bytes);
  }

  lemma BinaryBytes(bytes: seq<Byte>)
    ensures Emit(Binary(bytes)) == [TAG_BINARY] + Varint.Encode(|bytes|) + bytes
  {
    hide Varint.Encode, EmitElements, EmitMembers, EmitText, LittleEndian, IsNaN, TAG_BINARY;
  }

  lemma FourParts(a: seq<Byte>, b: seq<Byte>, c: seq<Byte>, d: seq<Byte>)
    ensures a + b + c + d == a + (b + c + d)
  {
  }

  lemma RealShape(bits: U64)
    ensures Encodable(Real(bits)) <==> !IsNaN(bits)
  {
    hide IsNaN;
  }

  lemma StringShape(t: Text)
    ensures Emit(String(t)) == EmitText(t) && (Encodable(String(t)) <==> Utf8.Valid(t))
  {
    hide EmitText, Utf8.Valid;
  }

  lemma SizedText(t: Text)
    requires Sized(String(t))
    ensures |t| < 0x1_0000_0000_0000_0000
  {
  }

  lemma TextShape(front: seq<Byte>, t: Text)
    requires Utf8.Valid(t)
    ensures front + [TAG_TEXT] + Varint.Encode(|t|) + t == front + EmitText(t)
  {
    hide Varint.Encode, Utf8.Valid;
    FourParts(front, [TAG_TEXT], Varint.Encode(|t|), t);
  }

  lemma FirstElement(es: seq<Value>, i: nat)
    requires i < |es|
    ensures EmitElements(es[i..]) == Emit(es[i]) + EmitElements(es[i + 1..])
  {
    hide Emit;
    assert es[i..][1..] == es[i + 1..];
  }

  lemma FirstMember(ms: seq<Member>, i: nat)
    requires i < |ms|
    ensures EmitMembers(ms[i..]) == EmitKey(ms[i].key) + Emit(ms[i].value) + EmitMembers(ms[i + 1..])
  {
    hide Emit, EmitKey;
    assert ms[i..][1..] == ms[i + 1..];
  }

  lemma ArrayDone(front: seq<Byte>, es: seq<Value>)
    ensures front + [TAG_ARRAY] + Varint.Encode(|es|) + EmitElements(es) == front + Emit(Array(es))
    ensures EmitElements(es[|es|..]) == []
    ensures Encodable(Array(es)) <==> !exists j :: 0 <= j < |es| && !Encodable(es[j])
  {
    hide Emit;
    ArrayShape(es, []);
    Assemble(front, TAG_ARRAY, Varint.Encode(|es|), EmitElements(es), Emit(Array(es)));
  }

  lemma Assemble(front: seq<Byte>, tag: Byte, a: seq<Byte>, b: seq<Byte>, whole: seq<Byte>)
    requires [tag] + (a + (b + [])) == whole + []
    ensures front + [tag] + a + b == front + whole
  {
    assert whole + [] == whole && b + [] == b;
    assert front + ([tag] + (a + b)) == front + [tag] + a + b;
  }

  lemma ObjectDone(front: seq<Byte>, ms: seq<Member>)
    ensures front + [TAG_OBJECT] + Varint.Encode(|ms|) + EmitMembers(ms) == front + Emit(Object(ms))
    ensures EmitMembers(ms[|ms|..]) == []
    ensures Encodable(Object(ms)) <==> !exists j :: 0 <= j < |ms| && !MemberEncodable(ms[j])
  {
    hide Emit, EmitKey;
    ObjectShape(ms, []);
    Assemble(front, TAG_OBJECT, Varint.Encode(|ms|), EmitMembers(ms), Emit(Object(ms)));
    ObjectEncodable(ms);
  }

  lemma ObjectEncodable(ms: seq<Member>)
    ensures Encodable(Object(ms)) <==> !exists j :: 0 <= j < |ms| && !MemberEncodable(ms[j])
  {
    hide Utf8.Valid;
    if !exists j :: 0 <= j < |ms| && !MemberEncodable(ms[j]) {
      forall m | m in ms
        ensures m.key != [] && Utf8.Valid(m.key) && Encodable(m.value)
      {
        assert MemberEncodable(m);
      }
    }
  }

  predicate MemberEncodable(m: Member) {
    m.key != [] && Utf8.Valid(m.key) && Encodable(m.value)
  }

  /** Every container length fits the 64-bit count the format gives it. */
  predicate Sized(v: Value) {
    match v
    case String(t) => |t| < 0x1_0000_0000_0000_0000
    case Binary(bytes) => |bytes| < 0x1_0000_0000_0000_0000
    case Array(es) => |es| < 0x1_0000_0000_0000_0000 && forall e :: e in es ==> Sized(e)
    case Object(ms) =>
      && |ms| < 0x1_0000_0000_0000_0000
      && forall m :: m in ms ==> |m.key| < 0x1_0000_0000_0000_0000 && Sized(m.value)
    case _ => true
  }

  class CanonicalReader {
    const data: seq<Byte>
    const limits: Limits
    var position: nat
    var nodes: nat

    constructor (data: seq<Byte>, limits: Limits)
      ensures this.data == data && this.limits == limits
      ensures Valid() && position == 0 && nodes == 0
    {
      this.data, this.limits, position, nodes := data, limits, 0, 0;
    }

    ghost predicate Valid()
      reads this
    {
      position <= |data|
    }

    ghost function Rest(): seq<Byte>
      reads this
      requires Valid()
    {
      data[position..]
    }

    ghost function Over(): bool {
      |data| > limits.maxDocumentBytes
    }

    method ReadTagByte() returns (r: Result<Byte>)
      requires Valid()
      modifies this
      ensures Valid() && nodes == old(nodes) && position >= old(position)
      ensures match ReadTag(old(Rest()), Over())
              case Ok((tag, rest)) => r == Ok(tag) && Rest() == rest
              case Err(code) => r == Err(code)
    {
      if |data| > limits.maxDocumentBytes {
        return Err(CapacityExceeded);
      }
      if position >= |data| {
        return Err(Corrupt);
      }
      r := Ok(data[position]);
      position := position + 1;
    }

    method ReadVarint() returns (r: Result<U64>)
      requires Valid()
      modifies this
      ensures Valid() && nodes == old(nodes) && position >= old(position)
      ensures match Varint.Parse(old(Rest()))
              case Ok((n, rest)) => r == Ok(n) && Rest() == rest
              case Err(code) => r == Err(code)
    {
      var at;
      r, at := Varint.Read(data, position);
      position := at;
    }

    method ReadCount(most: U64) returns (r: Result<U64>)
      requires Valid()
      modifies this
      ensures Valid() && nodes == old(nodes) && position >= old(position)
      ensures match ReadLength(old(Rest()), most)
              case Ok((n, rest)) => r == Ok(n) && Rest() == rest
              case Err(code) => r == Err(code)
    {
      r := ReadVarint();
      if r.Ok? && r.value > most {
        r := Err(CapacityExceeded);
      }
    }

    method ReadRaw(count: nat) returns (r: Result<seq<Byte>>)
      requires Valid()
      modifies this
      ensures Valid() && nodes == old(nodes) && position >= old(position)
      ensures match ReadExact(old(Rest()), count)
              case Ok((bytes, rest)) => r == Ok(bytes) && Rest() == rest
              case Err(code) => r == Err(code)
    {
      if count > |data| - position {
        return Err(Corrupt);
      }
      assert data[position..][..count] == data[position..position + count];
      assert data[position..][count..] == data[position + count..];
      r := Ok(data[position..position + count]);
      position := position + count;
    }

    method ReadSized(most: U64) returns (r: Result<seq<Byte>>)
      requires Valid()
      modifies this
      ensures Valid() && nodes == old(nodes) && position >= old(position)
      ensures match ReadBlock(old(Rest()), most)
              case Ok((bytes, rest)) => r == Ok(bytes) && Rest() == rest
              case Err(code) => r == Err(code)
    {
      var count := ReadCount(most);
      if count.Err? {
        return Err(count.code);
      }
      r := ReadRaw(count.value);
    }

    method ReadUtf8() returns (r: Result<Text>)
      requires Valid()
      modifies this
      ensures Valid() && nodes == old(nodes) && position >= old(position)
      ensures match ReadText(old(Rest()), limits.maxStringBytes)
              case Ok((t, rest)) => r == Ok(t) && Rest() == rest
              case Err(code) => r == Err(code)
    {
      r := ReadSized(limits.maxStringBytes);
      if r.Ok? {
        var ok := Utf8.IsValid(r.value);
        if !ok {
          r := Err(Malformed);
        }
      }
    }

    method ReadBits() returns (r: Result<Value>)
      requires Valid()
      modifies this
      ensures Valid() && nodes == old(nodes) && position >= old(position)
      ensures match ReadReal(old(Rest()))
              case Ok((v, rest)) => r == Ok(v) && Rest() == rest
              case Err(code) => r == Err(code)
    {
      var raw := ReadRaw(8);
      if raw.Err? {
        return Err(raw.code);
      }
      ScaleValues();
      var bits := FromLittleEndian(raw.value);
      if IsNaN(bits) {
        return Err(Malformed);
      }
      r := Ok(Real(bits));
    }

    method ReadScalarValue(tag: Byte) returns (r: Result<Value>)
      requires Valid()
      modifies this
      ensures Valid() && nodes == old(nodes) && position >= old(position)
      ensures match ReadScalar(tag, old(Rest()), limits)
              case Ok((v, rest)) => r == Ok(v) && Rest() == rest
              case Err(code) => r == Err(code)
    {
      hide ReadText, ReadBlock, ReadReal, Varint.Parse;
      if tag == TAG_NULL {
        r := Ok(Null);
      } else if tag == TAG_FALSE {
        r := Ok(Boolean(false));
      } else if tag == TAG_TRUE {
        r := Ok(Boolean(true));
      } else if tag == TAG_INTEGER {
        var n := ReadVarint();
        r := if n.Ok? then Ok(Integer(Varint.UnZigZag(n.value))) else Err(n.code);
      } else if tag == TAG_UNSIGNED {
        var n := ReadVarint();
        r := if n.Ok? then Ok(Unsigned(n.value)) else Err(n.code);
      } else if tag == TAG_REAL {
        r := ReadBits();
      } else if tag == TAG_TEXT {
        var t := ReadUtf8();
        r := if t.Ok? then Ok(String(t.value)) else Err(t.code);
      } else if tag == TAG_BINARY {
        var bytes := ReadSized(limits.maxBinaryBytes);
        r := if bytes.Ok? then Ok(Binary(bytes.value)) else Err(bytes.code);
      } else {
        r := Err(Malformed);
      }
    }

    /** One object key: node budget, tag, text, emptiness, order. */
    method ReadObjectKey(previous: Option<Text>) returns (r: Result<Text>)
      requires Valid()
      modifies this
      ensures Valid() && position >= old(position)
      ensures match ReadKey(old(Rest()), Over(), limits, old(nodes), previous)
              case Ok(k) => r == Ok(k.value) && Rest() == k.rest && nodes == k.nodes
              case Err(code) => r == Err(code)
    {
      hide ReadText;
      if nodes >= limits.maxNodes {
        return Err(CapacityExceeded);
      }
      nodes := nodes + 1;
      var tag := ReadTagByte();
      if tag.Err? {
        return Err(tag.code);
      }
      if tag.value != TAG_TEXT {
        return Err(Malformed);
      }
      r := ReadUtf8();
      if r.Err? {
        return;
      }
      if r.value == [] {
        return Err(Malformed);
      }
      if previous.Some? && !TextLess(previous.value, r.value) {
        return Err(Malformed);
      }
    }

    /** `read_value_at_depth`. */
    method ReadValueAtDepth(depth: nat) returns (r: Result<Value>)
      requires Valid()
      modifies this
      ensures Valid() && position >= old(position)
      ensures match ReadValue(old(Rest()), Over(), limits, depth, old(nodes))
              case Ok(p) => r == Ok(p.value) && Rest() == p.rest && nodes == p.nodes
              case Err(code) => r == Err(code)
      decreases |data| - position, 0
    {
      hide ReadScalar, ReadArray, ReadObject;
      if depth > limits.maxDepth {
        return Err(CapacityExceeded);
      }
      if nodes >= limits.maxNodes {
        return Err(CapacityExceeded);
      }
      nodes := nodes + 1;
      ghost var start := Rest();
      var tag := ReadTagByte();
      if tag.Err? {
        return Err(tag.code);
      }
      assert |Rest()| < |start|;
      if tag.value == TAG_ARRAY {
        r := ReadArrayValue(depth);
      } else if tag.value == TAG_OBJECT {
        r := ReadObjectValue(depth);
      } else {
        r := ReadScalarValue(tag.value);
      }
    }

    method ReadArrayValue(depth: nat) returns (r: Result<Value>)
      requires Valid()
      modifies this
      ensures Valid() && position >= old(position)
      ensures match ReadArray(old(Rest()), Over(), limits, depth, old(nodes))
              case Ok(p) => r == Ok(p.value) && Rest() == p.rest && nodes == p.nodes
              case Err(code) => r == Err(code)
      decreases |data| - position, 0
    {
      hide ReadValue, ReadElements;
      ghost var start := Rest();
      var count := ReadCount(limits.maxElements);
      if count.Err? {
        return Err(count.code);
      }
      assert |Rest()| < |start|;
      var es := ReadElementValues(depth + 1, count.value);
      r := if es.Ok? then Ok(Array(es.value)) else Err(es.code);
    }

    method ReadElementValues(depth: nat, count: nat) returns (r: Result<seq<Value>>)
      requires Valid()
      modifies this
      ensures Valid() && position >= old(position)
      ensures match ReadElements(old(Rest()), Over(), limits, depth, old(nodes), count)
              case Ok(p) => r == Ok(p.value) && Rest() == p.rest && nodes == p.nodes
              case Err(code) => r == Err(code)
      decreases |data| - position, count + 1
    {
      hide ReadValue;
      var elements, i := [], 0;
      PrefixedLaws([], Null, ReadElements(Rest(), Over(), limits, depth, nodes, count));
      while i < count
        invariant Valid() && position >= old(position) && 0 <= i <= count
        invariant Prefixed(elements, ReadElements(Rest(), Over(), limits, depth, nodes, count - i))
               == ReadElements(old(Rest()), Over(), limits, depth, old(nodes), count)
      {
        var element := ReadValueAtDepth(depth);
        if element.Err? {
          return Err(element.code);
        }
        PrefixedLaws(elements, element.value, ReadElements(Rest(), Over(), limits, depth, nodes, count - i - 1));
        elements := elements + [element.value];
        i := i + 1;
      }
      assert elements + [] == elements;
      r := Ok(elements);
    }

    method ReadObjectValue(depth: nat) returns (r: Result<Value>)
      requires Valid()
      modifies this
      ensures Valid() && position >= old(position)
      ensures match ReadObject(old(Rest()), Over(), limits, depth, old(nodes))
              case Ok(p) => r == Ok(p.value) && Rest() == p.rest && nodes == p.nodes
              case Err(code) => r == Err(code)
      decreases |data| - position, 0
    {
      hide ReadValue, ReadKey, SetUnique;
      ghost var start := Rest();
      var count := ReadCount(limits.maxObjectFields);
      if count.Err? {
        return Err(count.code);
      }
      assert |Rest()| < |start|;
      ghost var body, nodes0 := Rest(), nodes;
      var members, previous, i := [], None, 0;
      while i < count.value
        invariant Valid() && position >= old(position) && |Rest()| < |start|
        invariant 0 <= i <= count.value
        invariant ReadMembers(Rest(), Over(), limits, depth + 1, nodes, count.value - i, members, previous)
               == ReadMembers(body, Over(), limits, depth + 1, nodes0, count.value, [], None)
      {
        var key := ReadObjectKey(previous);
        if key.Err? {
          return Err(key.code);
        }
        previous := Some(key.value);
        var value := ReadValueAtDepth(depth + 1);
        if value.Err? {
          return Err(value.code);
        }
        var grown := SetUnique(members, key.value, value.value);
        if grown.Err? {
          return Err(grown.code);
        }
        members := grown.value;
        i := i + 1;
      }
      r := Ok(Object(members));
    }

    /** `read_document` on a fresh reader. */
    method ReadWholeDocument() returns (r: Result<Value>)
      requires Valid() && position == 0 && nodes == 0
      modifies this
      ensures r == ReadDocument(data, limits)
    {
      hide ReadValue;
      assert Rest() == data;
      r := ReadValueAtDepth(0);
      if r.Ok? && position < |data| {
        r := Err(Malformed);
      }
    }
  }

  ghost function Prefixed(front: seq<Value>, r: Result<Parsed<seq<Value>>>): Result<Parsed<seq<Value>>> {
    match r
    case Ok(p) => Ok(Parsed(front + p.value, p.rest, p.nodes))
    case Err(code) => Err(code)
  }

  lemma PrefixedLaws(front: seq<Value>, v: Value, r: Result<Parsed<seq<Value>>>)
    ensures Prefixed([], r) == r
    ensures Prefixed(front, Prefixed([v], r)) == Prefixed(front + [v], r)
  {
    if r.Ok? {
      assert [] + r.value.value == r.value.value;
      assert front + ([v] + r.value.value) == front + [v] + r.value.value;
    }
  }

  /** Writing a value and reading the bytes back, through the two classes. */
  method WriteThenRead(v: Value, limits: Limits) returns (r: Result<Value>)
    requires Sized(v) && Fits(v, limits, 0) && Nodes(v) <= limits.maxNodes && |Emit(v)| <= limits.maxDocumentBytes
    ensures r == Ok(v)
  {
    var writer := new CanonicalWriter();
    writer.WriteValue(v);
    assert writer.buffer == Emit(v);
    var reader := new CanonicalReader(writer.buffer, limits);
    r := reader.ReadWholeDocument();
    AcceptedIffEncoded(Emit(v), limits, v);
  }
}
