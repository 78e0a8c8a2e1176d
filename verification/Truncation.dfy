/**
 * What the reader answers to damaged documents: a document cut short is corrupt, one that goes on is malformed, one
 * over its size limit is over capacity. src/canonical.cpp:330-720, include/trxreg/result.hpp:48-51.
 */
module Truncation {
  import opened Bytes
  import opened Ordering
  import opened Canonical
  import Frames
  import Varint
  import Utf8

  // `p < s` says that p is a proper prefix of s.

  // ----- Scalars -----

  lemma {:induction false} VarintCut(m: nat, used: nat, value: nat, p: seq<Byte>)
    requires used <= 9 && value < Varint.Shift(1, used) && value + Varint.Shift(m, used) < 0x1_0000_0000_0000_0000
    requires p < Varint.Encode(m)
    ensures Varint.ParseFrom(p, used, value) == Err(Corrupt)
    decreases m
  {
    if p != [] {
      var d, high := m % 0x80, m / 0x80;
      Varint.TenthByte(m, used, value);
      Varint.SplitDigit(m, used);
      assert p[1..] < Varint.Encode(high) && p == [d + 0x80] + p[1..];
      Varint.ParseContinues(d + 0x80, p[1..], used, value);
      VarintCut(high, used + 1, value + Varint.Shift(d, used), p[1..]);
    }
  }

  lemma NumberCut(n: U64, p: seq<Byte>)
    requires p < Varint.Encode(n)
    ensures Varint.Parse(p) == Err(Corrupt)
  {
    VarintCut(n, 0, 0, p);
  }

  /** A proper prefix of a + b lies within a, or is a and a proper prefix of b. */
  lemma CutWhere(a: seq<Byte>, b: seq<Byte>, p: seq<Byte>)
    requires p < a + b
    ensures p < a || (a <= p && p[|a|..] < b && p == a + p[|a|..])
  {
  }

  lemma BlockCut(t: seq<Byte>, most: U64, p: seq<Byte>)
    requires |t| <= most && p < Varint.Encode(|t|) + t
    ensures ReadBlock(p, most) == Err(Corrupt)
  {
    hide Varint.Parse, Varint.Encode;
    CutWhere(Varint.Encode(|t|), t, p);
    if p < Varint.Encode(|t|) {
      NumberCut(|t|, p);
    } else {
      Varint.Complete(|t|, p[|Varint.Encode(|t|)|..]);
    }
  }

  lemma ScalarCut(v: Value, lim: Limits, depth: nat, p: seq<Byte>)
    requires Fits(v, lim, depth) && !v.Array? && !v.Object? && p < ScalarBody(v)
    ensures ReadScalar(ScalarTag(v), p, lim) == Err(Corrupt)
  {
    hide Varint.Parse, Varint.Encode, ReadBlock;
    match v
    case Integer(i) => NumberCut(Varint.ZigZag(i), p);
    case Unsigned(u) => NumberCut(u, p);
    case String(t) => BlockCut(t, lim.maxStringBytes, p);
    case Binary(bytes) => BlockCut(bytes, lim.maxBinaryBytes, p);
    case _ =>
  }

  lemma KeyCut(key: Text, lim: Limits, nodes: nat, previous: Option<Text>, p: seq<Byte>)
    requires KeyFits(key, lim) && nodes < lim.maxNodes && p < EmitKey(key)
    ensures ReadKey(p, false, lim, nodes, previous) == Err(Corrupt)
  {
    hide ReadBlock, Varint.Encode;
    if p != [] {
      var body := Varint.Encode(|key|) + key;
      assert EmitKey(key) == [TAG_TEXT] + body && p[1..] < body;
      BlockCut(key, lim.maxStringBytes, p[1..]);
    }
  }

  // ----- Values -----

  lemma NothingThere(lim: Limits, depth: nat, nodes: nat)
    requires depth <= lim.maxDepth && nodes < lim.maxNodes
    ensures ReadValue([], false, lim, depth, nodes) == Err(Corrupt)
  {
  }

  /** The bytes of a value that fits, cut anywhere. */
  lemma {:induction false} ValueCut(v: Value, lim: Limits, depth: nat, nodes: nat, p: seq<Byte>)
    requires Fits(v, lim, depth) && nodes + Nodes(v) <= lim.maxNodes && p < Emit(v)
    ensures ReadValue(p, false, lim, depth, nodes) == Err(Corrupt)
    decreases v, 1
  {
    hide ReadValue, Emit, Fits;
    assert depth <= lim.maxDepth by { FitsDepth(v, lim, depth); }
    if p == [] {
      NothingThere(lim, depth, nodes);
    } else {
      match v
      case Array(es) => ArrayCut(es, lim, depth, nodes, p);
      case Object(ms) => ObjectCut(ms, lim, depth, nodes, p);
      case _ => TaggedCut(v, lim, depth, nodes, p);
    }
  }

  lemma FitsDepth(v: Value, lim: Limits, depth: nat)
    requires Fits(v, lim, depth)
    ensures depth <= lim.maxDepth
  {
  }

  lemma TaggedCut(v: Value, lim: Limits, depth: nat, nodes: nat, p: seq<Byte>)
    requires Fits(v, lim, depth) && nodes < lim.maxNodes && !v.Array? && !v.Object? && [] < p < Emit(v)
    ensures ReadValue(p, false, lim, depth, nodes) == Err(Corrupt)
  {
    hide ReadValue, ReadScalar, Emit, ScalarBody, ReadArray, ReadObject;
    FitsDepth(v, lim, depth);
    FitsIsEncodable(v, lim, depth);
    ScalarShape(v, []);
    assert Emit(v) + [] == Emit(v) && ScalarBody(v) + [] == ScalarBody(v);
    assert p == [ScalarTag(v)] + p[1..] && p[1..] < ScalarBody(v);
    ScalarCut(v, lim, depth, p[1..]);
    ReadTagged(ScalarTag(v), p[1..], lim, depth, nodes);
  }

  lemma {:induction false} ArrayCut(es: seq<Value>, lim: Limits, depth: nat, nodes: nat, p: seq<Byte>)
    requires Fits(Array(es), lim, depth) && nodes + Nodes(Array(es)) <= lim.maxNodes && [] < p < Emit(Array(es))
    ensures ReadValue(p, false, lim, depth, nodes) == Err(Corrupt)
    decreases es, 1
  {
    hide ReadValue, ReadElements, EmitElements, Varint.Parse, Varint.Encode;
    var count, body := Varint.Encode(|es|), EmitElements(es);
    assert Emit(Array(es)) == [TAG_ARRAY] + (count + body);
    assert p == [TAG_ARRAY] + p[1..] && p[1..] < count + body;
    ReadTagged(TAG_ARRAY, p[1..], lim, depth, nodes);
    CutWhere(count, body, p[1..]);
    if p[1..] < count {
      NumberCut(|es|, p[1..]);
    } else {
      Varint.Complete(|es|, p[1..][|count|..]);
      ElementsCut(es, lim, depth + 1, nodes + 1, p[1..][|count|..]);
    }
  }

  lemma {:induction false} ElementsCut(es: seq<Value>, lim: Limits, depth: nat, nodes: nat, p: seq<Byte>)
    requires (forall e :: e in es ==> Fits(e, lim, depth)) && nodes + ElementNodes(es) <= lim.maxNodes
    requires p < EmitElements(es)
    ensures ReadElements(p, false, lim, depth, nodes, |es|) == Err(Corrupt)
    decreases es, 0
  {
    hide *;
    SomethingEmitted(es, p);
    EmitFirstElement(es, []);
    var first, rest := Emit(es[0]), EmitElements(es[1..]);
    assert EmitElements(es) + [] == EmitElements(es) && rest + [] == rest;
    CutWhere(first, rest, p);
    if p < first {
      ValueCut(es[0], lim, depth, nodes, p);
      FirstElementFails(p, lim, depth, nodes, |es|);
    } else {
      ReadValueComplete(es[0], p[|first|..], lim, depth, nodes);
      ElementsCut(es[1..], lim, depth, nodes + Nodes(es[0]), p[|first|..]);
      ReadElementsStep(p, lim, depth, nodes, |es|, es[0], p[|first|..]);
    }
  }

  lemma SomethingEmitted(es: seq<Value>, p: seq<Byte>)
    requires p < EmitElements(es)
    ensures es != []
  {
  }

  lemma FirstElementFails(p: seq<Byte>, lim: Limits, depth: nat, nodes: nat, count: nat)
    requires count > 0 && ReadValue(p, false, lim, depth, nodes) == Err(Corrupt)
    ensures ReadElements(p, false, lim, depth, nodes, count) == Err(Corrupt)
  {
    hide ReadValue;
  }

  lemma {:induction false} ObjectCut(ms: seq<Member>, lim: Limits, depth: nat, nodes: nat, p: seq<Byte>)
    requires Fits(Object(ms), lim, depth) && nodes + Nodes(Object(ms)) <= lim.maxNodes && [] < p < Emit(Object(ms))
    ensures ReadValue(p, false, lim, depth, nodes) == Err(Corrupt)
    decreases ms, 1
  {
    hide ReadValue, ReadMembers, EmitMembers, Varint.Parse, Varint.Encode;
    var count, body := Varint.Encode(|ms|), EmitMembers(ms);
    assert Emit(Object(ms)) == [TAG_OBJECT] + (count + body);
    assert p == [TAG_OBJECT] + p[1..] && p[1..] < count + body;
    ReadTagged(TAG_OBJECT, p[1..], lim, depth, nodes);
    CutWhere(count, body, p[1..]);
    if p[1..] < count {
      NumberCut(|ms|, p[1..]);
    } else {
      Varint.Complete(|ms|, p[1..][|count|..]);
      assert [] + ms == ms;
      MembersCut(ms, lim, depth + 1, nodes + 1, [], None, p[1..][|count|..]);
    }
  }

  lemma {:induction false} MembersCut(ms: seq<Member>, lim: Limits, depth: nat, nodes: nat, built: seq<Member>,
                                      previous: Option<Text>, p: seq<Byte>)
    requires forall m :: m in ms ==> KeyFits(m.key, lim) && Fits(m.value, lim, depth)
    requires nodes + MemberNodes(ms) <= lim.maxNodes
    requires Building(built, previous) && KeysAscend(built + ms) && p < EmitMembers(ms)
    ensures ReadMembers(p, false, lim, depth, nodes, |ms|, built, previous) == Err(Corrupt)
    decreases ms, 0
  {
    hide *;
    SomeMemberEmitted(ms, p);
    EmitFirstMember(ms, []);
    var m, rest := ms[0], EmitMembers(ms[1..]);
    var key, value := EmitKey(m.key), Emit(m.value);
    assert EmitMembers(ms) + [] == EmitMembers(ms) && rest + [] == rest;
    Rotate(built, ms);
    PreviousBelow(built, previous, ms, lim);
    CutWhere(key, value + rest, p);
    if p < key {
      KeyCut(m.key, lim, nodes, previous, p);
      KeyFails(p, lim, depth, nodes, |ms|, built, previous);
    } else {
      var afterKey := p[|key|..];
      KeyComplete(m.key, afterKey, lim, nodes, previous);
      CutWhere(value, rest, afterKey);
      if afterKey < value {
        ValueCut(m.value, lim, depth, nodes + 1, afterKey);
        MemberValueFails(p, lim, depth, nodes, |ms|, built, previous, m.key, afterKey);
      } else {
        var afterValue := afterKey[|value|..];
        ReadValueComplete(m.value, afterValue, lim, depth, nodes + 1);
        BuildingGrows(built, previous, m.key, m.value);
        MembersCut(ms[1..], lim, depth, nodes + 1 + Nodes(m.value), built + [m], Some(m.key), afterValue);
        ReadMembersStep(p, lim, depth, nodes, |ms|, built, previous, m, afterKey, afterValue);
      }
    }
  }

  lemma SomeMemberEmitted(ms: seq<Member>, p: seq<Byte>)
    requires p < EmitMembers(ms)
    ensures ms != []
  {
  }

  lemma KeyFails(p: seq<Byte>, lim: Limits, depth: nat, nodes: nat, count: nat, built: seq<Member>,
                 previous: Option<Text>)
    requires count > 0 && ReadKey(p, false, lim, nodes, previous) == Err(Corrupt)
    ensures ReadMembers(p, false, lim, depth, nodes, count, built, previous) == Err(Corrupt)
  {
    hide ReadKey, ReadValue;
  }

  lemma MemberValueFails(p: seq<Byte>, lim: Limits, depth: nat, nodes: nat, count: nat, built: seq<Member>,
                         previous: Option<Text>, key: Text, afterKey: seq<Byte>)
    requires count > 0 && ReadKey(p, false, lim, nodes, previous) == Ok(Parsed(key, afterKey, nodes + 1))
    requires ReadValue(afterKey, false, lim, depth, nodes + 1) == Err(Corrupt)
    ensures ReadMembers(p, false, lim, depth, nodes, count, built, previous) == Err(Corrupt)
  {
    hide ReadKey, ReadValue;
  }

  // ----- Documents -----

  lemma Accepted(data: seq<Byte>, lim: Limits) returns (v: Value)
    requires ReadDocument(data, lim).Ok?
    ensures |data| <= lim.maxDocumentBytes && data == Emit(v) && Fits(v, lim, 0) && Nodes(v) <= lim.maxNodes
  {
    hide Fits, Emit;
    assert |data| <= lim.maxDocumentBytes;
    hide ReadValue;
    ReadValueSound(data, false, lim, 0, 0);
    v := ReadDocument(data, lim).value;
    assert Emit(v) + [] == Emit(v);
  }

  /** An accepted document cut anywhere is corrupt: nothing shorter is ever taken for a document. */
  lemma TruncatedIsCorrupt(data: seq<Byte>, lim: Limits, k: nat)
    requires ReadDocument(data, lim).Ok? && k < |data|
    ensures ReadDocument(data[..k], lim) == Err(Corrupt)
  {
    var v := Accepted(data, lim);
    hide ReadValue, Fits, Emit;
    ValueCut(v, lim, 0, 0, data[..k]);
  }

  /** An accepted document with anything behind it is malformed, or over capacity when it no longer fits. */
  lemma TrailingIsRefused(data: seq<Byte>, more: seq<Byte>, lim: Limits)
    requires ReadDocument(data, lim).Ok? && more != []
    ensures ReadDocument(data + more, lim) ==
            if |data| + |more| > lim.maxDocumentBytes then Err(CapacityExceeded) else Err(Malformed)
  {
    var v := Accepted(data, lim);
    if |data| + |more| <= lim.maxDocumentBytes {
      hide ReadValue, Fits, Emit;
      ReadValueComplete(v, more, lim, 0, 0);
    }
  }

  /** A frame is its header's length and no other: an accepted frame cut short, or with more behind it, is corrupt. */
  lemma OtherLengthIsCorrupt(b: seq<Byte>, c: seq<Byte>, maxBodyBytes: U32, lim: Limits, crc: seq<Byte> -> U32)
    requires Frames.ParseFrame(b, maxBodyBytes, lim, crc).Ok?
    requires c < b || b < c
    ensures Frames.ParseFrame(c, maxBodyBytes, lim, crc) == Err(Corrupt)
  {
    hide ReadDocument, Frames.ParseHeader;
    if |c| >= 20 {
      assert c[..16] == b[..16];
    }
  }
}
