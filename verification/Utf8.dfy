/** UTF-8 well-formedness: `is_valid_utf8` of src/canonical.cpp against section 3 of RFC 3629. */
module Utf8 {
  import opened Bytes

  /** Unicode scalar values: every code point except the surrogates. */
  type Scalar = c: int | 0 <= c < 0xD800 || 0xE000 <= c <= 0x10FFFF

  /** The table of section 3 of RFC 3629. */
  function EncodeScalar(c: Scalar): (s: seq<Byte>)
    ensures 1 <= |s| <= 4
  {
    if c < 0x80 then [c]
    else if c < 0x800 then [0xC0 + c / 0x40, 0x80 + c % 0x40]
    else if c < 0x1_0000 then [0xE0 + c / 0x1000, 0x80 + c / 0x40 % 0x40, 0x80 + c % 0x40]
    else [0xF0 + c / 0x4_0000, 0x80 + c / 0x1000 % 0x40, 0x80 + c / 0x40 % 0x40, 0x80 + c % 0x40]
  }

  function EncodeScalars(cs: seq<Scalar>): seq<Byte> {
    if cs == [] then [] else EncodeScalar(cs[0]) + EncodeScalars(cs[1..])
  }

  /** What a lead byte at or above 0x80 announces: the number of continuation bytes and the
      range of the first of them. */
  function Lead(byte: Byte): Option<(nat, Byte, Byte)> {
    if 0xC2 <= byte <= 0xDF then Some((1, 0x80, 0xBF))
    else if byte == 0xE0 then Some((2, 0xA0, 0xBF))
    else if 0xE1 <= byte <= 0xEC then Some((2, 0x80, 0xBF))
    else if byte == 0xED then Some((2, 0x80, 0x9F))
    else if 0xEE <= byte <= 0xEF then Some((2, 0x80, 0xBF))
    else if byte == 0xF0 then Some((3, 0x90, 0xBF))
    else if 0xF1 <= byte <= 0xF3 then Some((3, 0x80, 0xBF))
    else if byte == 0xF4 then Some((3, 0x80, 0x8F))
    else None
  }

  predicate Continuation(byte: Byte) {
    0x80 <= byte <= 0xBF
  }

  /** Length of the well-formed unit at the head of `s`; 0 when there is none. */
  function UnitLength(s: seq<Byte>): (n: nat)
    ensures n <= |s| && n <= 4
  {
    if s == [] then 0
    else if s[0] < 0x80 then 1
    else match Lead(s[0])
      case None => 0
      case Some((extra, lower, upper)) =>
        if extra >= |s| || !(lower <= s[1] <= upper) then 0
        else if extra >= 2 && !Continuation(s[2]) then 0
        else if extra >= 3 && !Continuation(s[3]) then 0
        else extra + 1
  }

  predicate Valid(s: seq<Byte>)
    decreases |s|
  {
    s == [] || (UnitLength(s) > 0 && Valid(s[UnitLength(s)..]))
  }

  /** One round of the loop of `is_valid_utf8`: the unit starting at index `i`. */
  method CheckUnit(text: seq<Byte>, i: nat) returns (n: nat)
    requires i < |text|
    ensures n == UnitLength(text[i..])
  {
    ghost var tail := text[i..];
    var byte := text[i];
    if byte < 0x80 {
      return 1;
    }
    var announced := Lead(byte);
    if announced == None {
      return 0;
    }
    var (extra, lower, upper) := announced.value;
    if i + extra >= |text| {
      return 0;
    }
    if text[i + 1] < lower || text[i + 1] > upper {
      return 0;
    }
    var k := 2;
    while k <= extra
      invariant 2 <= k && (k == 2 || k <= extra + 1)
      invariant forall j :: 2 <= j < k ==> Continuation(tail[j])
    {
      if !Continuation(text[i + k]) {
        assert !Continuation(tail[k]);
        return 0;
      }
      k := k + 1;
    }
    n := extra + 1;
  }

  /** src/canonical.cpp `is_valid_utf8`: one pass with an index. */
  method IsValid(text: seq<Byte>) returns (ok: bool)
    ensures ok == Valid(text)
  {
    var i := 0;
    while i < |text|
      invariant 0 <= i <= |text|
      invariant Valid(text) == Valid(text[i..])
    {
      var n := CheckUnit(text, i);
      if n == 0 {
        return false;
      }
      assert text[i..][n..] == text[i + n..];
      i := i + n;
    }
    ok := true;
  }

  /** The payload bits of a byte above its marker bits. */
  function Bits(byte: Byte, marker: int): int {
    byte - marker
  }

  /** The scalar value a well-formed unit stands for. */
  function DecodeUnit(s: seq<Byte>): int
    requires UnitLength(s) > 0
  {
    var n := UnitLength(s);
    if n == 1 then s[0]
    else if n == 2 then Bits(s[0], 0xC0) * 0x40 + Bits(s[1], 0x80)
    else if n == 3 then Bits(s[0], 0xE0) * 0x1000 + Bits(s[1], 0x80) * 0x40 + Bits(s[2], 0x80)
    else Bits(s[0], 0xF0) * 0x4_0000 + Bits(s[1], 0x80) * 0x1000 + Bits(s[2], 0x80) * 0x40 + Bits(s[3], 0x80)
  }

  lemma UnitIsScalar(s: seq<Byte>)
    requires UnitLength(s) > 0
    ensures 0 <= DecodeUnit(s) < 0xD800 || 0xE000 <= DecodeUnit(s) <= 0x10FFFF
    ensures EncodeScalar(DecodeUnit(s)) == s[..UnitLength(s)]
  {
    var n, c := UnitLength(s), DecodeUnit(s);
    if n == 2 {
      Digits(Bits(s[0], 0xC0), Bits(s[1], 0x80));
    } else if n == 3 {
      Digits(Bits(s[0], 0xE0) * 0x40 + Bits(s[1], 0x80), Bits(s[2], 0x80));
      Digits(Bits(s[0], 0xE0), Bits(s[1], 0x80));
      assert c / 0x1000 == c / 0x40 / 0x40;
    } else if n == 4 {
      var high := Bits(s[0], 0xF0) * 0x1000 + Bits(s[1], 0x80) * 0x40 + Bits(s[2], 0x80);
      Digits(high, Bits(s[3], 0x80));
      Digits(Bits(s[0], 0xF0) * 0x40 + Bits(s[1], 0x80), Bits(s[2], 0x80));
      Digits(Bits(s[0], 0xF0), Bits(s[1], 0x80));
      assert c / 0x1000 == c / 0x40 / 0x40 && c / 0x4_0000 == c / 0x40 / 0x40 / 0x40;
    }
  }

  lemma Digits(high: nat, low: nat)
    requires low < 0x40
    ensures (high * 0x40 + low) / 0x40 == high && (high * 0x40 + low) % 0x40 == low
  {
  }

  lemma ScalarIsUnit(c: Scalar, rest: seq<Byte>)
    ensures UnitLength(EncodeScalar(c) + rest) == |EncodeScalar(c)|
  {
    var s := EncodeScalar(c) + rest;
    if 0x800 <= c < 0x1_0000 {
      assert s[1] == 0x80 + c / 0x40 % 0x40;
    } else if 0x1_0000 <= c {
      assert s[1] == 0x80 + c / 0x1000 % 0x40;
    }
  }

  lemma {:induction false} EncodedIsValid(cs: seq<Scalar>)
    ensures Valid(EncodeScalars(cs))
  {
    if cs != [] {
      var tail := EncodeScalars(cs[1..]);
      ScalarIsUnit(cs[0], tail);
      EncodedIsValid(cs[1..]);
      assert (EncodeScalar(cs[0]) + tail)[|EncodeScalar(cs[0])|..] == tail;
    }
  }

  lemma {:induction false} ValidDecodes(s: seq<Byte>) returns (cs: seq<Scalar>)
    requires Valid(s)
    ensures EncodeScalars(cs) == s
    decreases |s|
  {
    if s == [] {
      cs := [];
    } else {
      var n := UnitLength(s);
      UnitIsScalar(s);
      var tail := ValidDecodes(s[n..]);
      cs := [DecodeUnit(s)] + tail;
      assert s == s[..n] + s[n..];
    }
  }

  /** Acceptance is exact: a byte string passes iff it is a concatenation of encodings of
      Unicode scalar values. */
  lemma ValidIffScalars(s: seq<Byte>)
    ensures Valid(s) <==> exists cs: seq<Scalar> :: EncodeScalars(cs) == s
  {
    if Valid(s) {
      var cs := ValidDecodes(s);
    }
    forall cs: seq<Scalar> | EncodeScalars(cs) == s
      ensures Valid(s)
    {
      EncodedIsValid(cs);
    }
  }
}
