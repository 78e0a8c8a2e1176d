/** Minimal LEB128-style varints and the zigzag map of src/canonical.cpp. */
module Varint {
  import opened Bytes

  /** `n << 7k`, without the truncation to 64 bits. */
  function Shift(n: nat, k: nat): nat {
    if k == 0 then n else 128 * Shift(n, k - 1)
  }

  lemma {:induction false} ShiftLaws(d: nat, high: nat, k: nat)
    ensures Shift(d + 0x80 * high, k) == Shift(d, k) + Shift(high, k + 1)
    ensures d <= high ==> Shift(d, k) <= Shift(high, k)
    ensures d > 0 ==> Shift(d, k) >= Shift(1, k)
    ensures d < 0x80 ==> Shift(d, k) + Shift(1, k) <= Shift(1, k + 1)
    ensures Shift(0, k) == 0
  {
    if k > 0 {
      ShiftLaws(d, high, k - 1);
      ShiftLaws(d, high, k - 1);
    }
  }

  lemma ShiftValues()
    ensures Shift(1, 9) == 0x8000_0000_0000_0000
    ensures Shift(2, 9) == 0x1_0000_0000_0000_0000
  {
    assert Shift(1, 2) == 16384;
    assert Shift(1, 4) == 0x1000_0000;
    assert Shift(1, 6) == 0x400_0000_0000;
    assert Shift(1, 8) == 0x100_0000_0000_0000;
    ShiftLaws(0, 1, 9);
    ShiftTwo(9);
  }

  lemma ShiftTwo(k: nat)
    ensures Shift(2, k) == 2 * Shift(1, k)
  {
  }

  lemma ShiftMonotone(a: nat, b: nat)
    requires a <= b
    ensures Shift(1, a) <= Shift(1, b)
  {
  }

  function Encode(n: nat): (s: seq<Byte>)
    ensures |s| >= 1
  {
    if n < 0x80 then [n] else [n % 0x80 + 0x80] + Encode(n / 0x80)
  }

  /** What `read_varint` sees after `used` bytes with payload bits `value` collected. */
  function ParseFrom(s: seq<Byte>, used: nat, value: nat): (r: Result<(U64, seq<Byte>)>)
    requires used <= 9 && value < Shift(1, used)
    ensures r.Ok? ==> |r.value.1| < |s|
    decreases |s|
  {
    if s == [] then Err(Corrupt)
    else
      var byte := s[0];
      if used == 9 && byte % 0x80 > 1 then Err(Malformed)
      else
        var next := value + Shift(byte % 0x80, used);
        NextFits(used, value, byte);
        if byte < 0x80 then
          if used > 0 && next < Shift(1, used) then Err(Malformed) else Ok((next, s[1..]))
        else if used + 1 >= 10 then Err(Malformed)
        else ParseFrom(s[1..], used + 1, next)
  }

  lemma NextFits(used: nat, value: nat, byte: Byte)
    requires used <= 9 && value < Shift(1, used)
    ensures value + Shift(byte % 0x80, used) < Shift(1, used + 1)
    ensures !(used == 9 && byte % 0x80 > 1) ==> value + Shift(byte % 0x80, used) < 0x1_0000_0000_0000_0000
    ensures value + Shift(byte % 0x80, used) < Shift(1, used) <==> byte % 0x80 == 0
  {
    ShiftLaws(byte % 0x80, 1, used);
    ShiftValues();
    if used < 9 {
      ShiftMonotone(used + 1, 9);
    }
  }

  function Parse(s: seq<Byte>): (r: Result<(U64, seq<Byte>)>)
    ensures r.Ok? ==> |r.value.1| < |s|
  {
    ParseFrom(s, 0, 0)
  }

  /** Whatever is accepted is the minimal encoding of what is returned. */
  lemma {:induction false} ParseFromSound(s: seq<Byte>, used: nat, value: nat) returns (m: nat)
    requires used <= 9 && value < Shift(1, used)
    requires ParseFrom(s, used, value).Ok?
    ensures ParseFrom(s, used, value).value.0 == value + Shift(m, used)
    ensures used > 0 ==> m > 0
    ensures s == Encode(m) + ParseFrom(s, used, value).value.1
    decreases |s|
  {
    var byte := s[0];
    NextFits(used, value, byte);
    assert s == [byte] + s[1..];
    if byte < 0x80 {
      m := byte;
    } else {
      ParseContinues(byte, s[1..], used, value);
      var high := ParseFromSound(s[1..], used + 1, value + Shift(byte - 0x80, used));
      m := byte - 0x80 + 0x80 * high;
      EncodeDigit(byte, high, used);
    }
  }

  lemma EncodeDigit(byte: Byte, high: nat, used: nat)
    requires byte >= 0x80 && high > 0
    ensures Encode(byte - 0x80 + 0x80 * high) == [byte] + Encode(high)
    ensures Shift(byte - 0x80 + 0x80 * high, used) == Shift(byte - 0x80, used) + Shift(high, used + 1)
  {
    ShiftLaws(byte - 0x80, high, used);
  }

  lemma ParseContinues(byte: Byte, s: seq<Byte>, used: nat, value: nat)
    requires used < 9 && value < Shift(1, used) && byte >= 0x80
    ensures value + Shift(byte - 0x80, used) < Shift(1, used + 1)
    ensures ParseFrom([byte] + s, used, value) == ParseFrom(s, used + 1, value + Shift(byte - 0x80, used))
  {
    NextFits(used, value, byte);
    assert ([byte] + s)[1..] == s;
  }

  lemma ParseEnds(byte: Byte, s: seq<Byte>, used: nat, value: nat)
    requires used <= 9 && value < Shift(1, used) && byte < 0x80
    requires (used == 9 ==> byte <= 1) && (used > 0 ==> byte > 0)
    ensures ParseFrom([byte] + s, used, value) == Ok((value + Shift(byte, used), s))
  {
    NextFits(used, value, byte);
    assert ([byte] + s)[1..] == s;
  }

  lemma TenthByte(m: nat, used: nat, value: nat)
    requires value + Shift(m, used) < 0x1_0000_0000_0000_0000
    ensures used == 9 ==> m <= 1
  {
    ShiftValues();
    ShiftLaws(2, m, used);
  }

  lemma SplitDigit(m: nat, k: nat)
    ensures Shift(m, k) == Shift(m % 0x80, k) + Shift(m / 0x80, k + 1)
  {
    ShiftLaws(m % 0x80, m / 0x80, k);
    assert m == m % 0x80 + 0x80 * (m / 0x80);
  }

  /** Every 64-bit value reads back from its own encoding, with the rest untouched. */
  lemma {:induction false} ParseFromComplete(m: nat, rest: seq<Byte>, used: nat, value: nat)
    requires used <= 9 && value < Shift(1, used) && (used > 0 ==> m > 0)
    requires value + Shift(m, used) < 0x1_0000_0000_0000_0000
    ensures ParseFrom(Encode(m) + rest, used, value) == Ok((value + Shift(m, used), rest))
    decreases m
  {
    TenthByte(m, used, value);
    if m < 0x80 {
      ParseEnds(m, rest, used, value);
    } else {
      var d, high := m % 0x80, m / 0x80;
      SplitDigit(m, used);
      assert Encode(m) + rest == [d + 0x80] + (Encode(high) + rest);
      ParseContinues(d + 0x80, Encode(high) + rest, used, value);
      ParseFromComplete(high, rest, used + 1, value + Shift(d, used));
    }
  }

  lemma Sound(s: seq<Byte>)
    requires Parse(s).Ok?
    ensures s == Encode(Parse(s).value.0) + Parse(s).value.1
  {
    var m := ParseFromSound(s, 0, 0);
  }

  lemma Complete(n: U64, rest: seq<Byte>)
    ensures Parse(Encode(n) + rest) == Ok((n, rest))
  {
    ParseFromComplete(n, rest, 0, 0);
  }

  /** zigzag_encode and zigzag_decode, with the shifts and masks written as arithmetic. */
  function ZigZag(n: I64): U64 {
    if n >= 0 then 2 * n else -2 * n - 1
  }

  function UnZigZag(u: U64): I64 {
    if u % 2 == 0 then u / 2 else -(u / 2) - 1
  }

  lemma ZigZagInverse(n: I64, u: U64)
    ensures UnZigZag(ZigZag(n)) == n
    ensures ZigZag(UnZigZag(u)) == u
  {
  }

  /** src/canonical.cpp `append_varint`: the loop that appends to a growing buffer. */
  method Append(buffer: seq<Byte>, n: U64) returns (out: seq<Byte>)
    ensures out == buffer + Encode(n)
  {
    out := buffer;
    var value: nat := n;
    while value >= 0x80
      invariant out + Encode(value) == buffer + Encode(n)
    {
      assert out + Encode(value) == (out + [value % 0x80 + 0x80]) + Encode(value / 0x80);
      out := out + [value % 0x80 + 0x80];
      value := value / 0x80;
    }
    out := out + [value];
  }

  /** src/canonical.cpp `read_varint`: `position` moves past the bytes read. */
  method Read(data: seq<Byte>, start: nat) returns (r: Result<U64>, position: nat)
    requires start <= |data|
    ensures start <= position <= |data|
    ensures match Parse(data[start..])
            case Ok((n, rest)) => r == Ok(n) && data[position..] == rest
            case Err(code) => r == Err(code)
  {
    var value: nat, used: nat := 0, 0;
    position := start;
    while true
      invariant start <= position <= |data| && used <= 9 && value < Shift(1, used)
      invariant Parse(data[start..]) == ParseFrom(data[position..], used, value)
      decreases |data| - position
    {
      if position >= |data| {
        return Err(Corrupt), position;
      }
      var byte := data[position];
      assert data[position..][1..] == data[position + 1..];
      position := position + 1;
      if used == 9 && byte % 0x80 > 1 {
        return Err(Malformed), position;
      }
      NextFits(used, value, byte);
      value := value + Shift(byte % 0x80, used);
      if byte < 0x80 {
        break;
      }
      used := used + 1;
      if used >= 10 {
        return Err(Malformed), position;
      }
    }
    if used > 0 && value < Shift(1, used) {
      return Err(Malformed), position;
    }
    r := Ok(value);
  }
}
