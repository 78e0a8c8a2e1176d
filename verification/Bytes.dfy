/** Bytes, fixed-width integers, status codes and little-endian words, shared by every other module. */
module Bytes {
  type Byte = b: int | 0 <= b < 0x100
  type U16 = n: int | 0 <= n < 0x1_0000
  type U32 = n: int | 0 <= n < 0x1_0000_0000
  type U64 = n: int | 0 <= n < 0x1_0000_0000_0000_0000
  type I64 = n: int | -0x8000_0000_0000_0000 <= n < 0x8000_0000_0000_0000

  const MAX_U32 := 0xFFFF_FFFF

  /** Stored text is a byte string. */
  type Text = seq<Byte>

  datatype StatusCode =
    | InvalidArgument | NotFound | Conflict | StaleAuthority | StaleGeneration
    | StaleIncarnation | Fenced | CapacityExceeded | Malformed | Corrupt
    | Unsupported | Refused | ClockSkew | InvalidTransition | Internal

  datatype Option<+T> = None | Some(value: T)

  datatype Result<+T> = Ok(value: T) | Err(code: StatusCode) {
    predicate IsFailure() {
      Err?
    }

    function PropagateFailure<U>(): Result<U>
      requires Err?
    {
      Err(code)
    }

    function Extract(): T
      requires Ok?
    {
      value
    }
  }

  /** ASCII literals as stored bytes. */
  function Ascii(name: string): (t: Text)
    ensures |t| == |name|
    ensures forall i :: 0 <= i < |t| ==> t[i] < 0x80
    ensures forall i :: 0 <= i < |t| && name[i] < 128 as char ==> t[i] == name[i] as int
  {
    seq(|name|, i requires 0 <= i < |name| => if name[i] < 128 as char then name[i] as int else 63)
  }

  /** 256^k */
  function Scale(k: nat): (p: nat)
    ensures p > 0
  {
    if k == 0 then 1 else 256 * Scale(k - 1)
  }

  lemma ScaleValues()
    ensures Scale(2) == 0x1_0000
    ensures Scale(4) == 0x1_0000_0000
    ensures Scale(8) == 0x1_0000_0000_0000_0000
  {
    assert Scale(3) == 0x100_0000;
    assert Scale(4) == 0x1_0000_0000;
    assert Scale(6) == 0x1_0000_0000_0000;
  }

  /** The `k` little-endian bytes of `n`, low byte first; higher bits are cut off. */
  function LittleEndian(n: nat, k: nat): (s: seq<Byte>)
    ensures |s| == k
  {
    if k == 0 then [] else [n % 256] + LittleEndian(n / 256, k - 1)
  }

  function FromLittleEndian(s: seq<Byte>): (n: nat)
    ensures n < Scale(|s|)
  {
    if s == [] then 0 else s[0] + 256 * FromLittleEndian(s[1..])
  }

  lemma {:induction false} LittleEndianRoundTrip(n: nat, k: nat)
    requires n < Scale(k)
    ensures FromLittleEndian(LittleEndian(n, k)) == n
  {
    if k > 0 {
      LittleEndianRoundTrip(n / 256, k - 1);
      assert LittleEndian(n, k)[1..] == LittleEndian(n / 256, k - 1);
    }
  }

  lemma LowByte(low: Byte, high: nat)
    ensures (low + 256 * high) % 256 == low && (low + 256 * high) / 256 == high
  {
  }

  lemma {:induction false} LittleEndianUnique(s: seq<Byte>)
    ensures LittleEndian(FromLittleEndian(s), |s|) == s
  {
    if s != [] {
      LittleEndianUnique(s[1..]);
      LowByte(s[0], FromLittleEndian(s[1..]));
      assert s == [s[0]] + s[1..];
    }
  }
}
