/** The formats byte by byte: what the encoders write, as the formats' descriptions give it. */
module Layouts {
  import opened Bytes
  import opened Canonical
  import opened Ordering
  import Varint
  import Utf8
  import Frames
  import Sha256
  import RecordStream
  import SnapshotState
  import Snapshot

  // ----- Numbers -----

  /** Digit i of a little-endian number is its i-th base-256 digit. */
  lemma {:induction false} LittleEndianDigits(n: nat, k: nat, i: nat)
    requires i < k
    ensures LittleEndian(n, k)[i] == n / Scale(i) % 256
  {
    if i > 0 {
      LittleEndianDigits(n / 256, k - 1, i - 1);
      DivideTwice(n, 256, Scale(i - 1));
    }
  }

  /** The other way round for a big-endian one. */
  lemma {:induction false} BigEndianDigits(n: nat, k: nat, i: nat)
    requires i < k
    ensures Sha256.BigEndian(n, k)[k - 1 - i] == n / Scale(i) % 256
  {
    if i > 0 {
      BigEndianDigits(n / 256, k - 1, i - 1);
      DivideTwice(n, 256, Scale(i - 1));
    }
  }

  lemma DivideTwice(n: nat, a: nat, b: nat)
    requires a > 0 && b > 0
    ensures n / a / b == n / (a * b)
  {
    var q, r := n / a / b, n / a % b;
    assert n == a * (b * q + r) + n % a;
    assert a * r + n % a < a * b by {
      assert a * r <= a * (b - 1);
    }
    assert n == (a * b) * q + (a * r + n % a);
    QuotientIs(n, a * b, q, a * r + n % a);
  }

  lemma QuotientIs(n: nat, d: nat, q: nat, r: nat)
    requires d > 0 && n == d * q + r && r < d
    ensures n / d == q
  {
    assert d * (n / d - q) == r - n % d;
    OnlyZero(d, n / d - q);
  }

  lemma OnlyZero(d: int, x: int)
    requires d > 0 && -d < d * x < d
    ensures x == 0
  {
  }

  // ----- Varints -----

  /** The number a sequence of 7-bit groups stands for, the lowest group first. */
  function Groups(s: seq<Byte>): nat {
    if s == [] then 0 else s[0] % 128 + 128 * Groups(s[1..])
  }

  /** Every byte but the last has its top bit set, and the last is not an empty group unless it is the only one. */
  predicate GroupForm(s: seq<Byte>) {
    && s != []
    && (forall i :: 0 <= i < |s| - 1 ==> s[i] >= 128)
    && s[|s| - 1] < 128 && (|s| > 1 ==> s[|s| - 1] != 0)
  }

  /** A varint is the one sequence of that form which stands for the number. */
  lemma {:induction false} VarintExactly(n: nat, s: seq<Byte>)
    ensures s == Varint.Encode(n) <==> GroupForm(s) && Groups(s) == n
  {
    if s != [] {
      GroupTail(s);
      if n >= 128 {
        VarintExactly(n / 128, s[1..]);
        assert Varint.Encode(n) == [n % 128 + 128] + Varint.Encode(n / 128);
        assert s == [s[0]] + s[1..];
      } else if |s| > 1 {
        GroupsPositive(s[1..]);
      }
    }
  }

  lemma GroupTail(s: seq<Byte>)
    requires s != []
    ensures GroupForm(s) <==> if |s| == 1 then s[0] < 128 else s[0] >= 128 && GroupForm(s[1..]) && s[1..] != [0]
  {
    if |s| > 1 {
      assert s[1..][|s| - 2] == s[|s| - 1];
      if GroupForm(s[1..]) && s[0] >= 128 {
        forall i | 0 <= i < |s| - 1 ensures s[i] >= 128 {
          assert i == 0 || s[1..][i - 1] == s[i];
        }
      }
    }
  }

  lemma {:induction false} GroupsPositive(s: seq<Byte>)
    requires s != []
    ensures GroupForm(s) && s != [0] ==> Groups(s) > 0
  {
    GroupTail(s);
    if |s| > 1 {
      GroupsPositive(s[1..]);
    }
  }

  /** Zigzag numbers the integers by distance from zero, the negative one of two first; no other numbering does. */
  lemma ZigZagOrder(a: I64, b: I64)
    ensures Varint.ZigZag(a) < Varint.ZigZag(b) <==>
            var far: int -> int := x => if x < 0 then -x else x;
            far(a) < far(b) || (far(a) == far(b) && a < b)
    ensures Varint.ZigZag(0) == 0 && Varint.ZigZag(-1) == 1 && Varint.ZigZag(1) == 2
  {
  }

  // ----- Documents -----

  /** The bit patterns of doubles that are no numbers: everything past an infinity of either sign. */
  lemma NaNExactly(bits: U64)
    ensures IsNaN(bits) <==>
            0x7FF0_0000_0000_0000 < bits <= 0x7FFF_FFFF_FFFF_FFFF || 0xFFF0_0000_0000_0000 < bits
  {
  }

  function Joined(parts: seq<seq<Byte>>): seq<Byte> {
    if parts == [] then [] else Joined(parts[..|parts| - 1]) + parts[|parts| - 1]
  }

  function TextBytes(t: Text): seq<Byte> { [5] + Varint.Encode(|t|) + t }

  function ElementBytes(es: seq<Value>): seq<seq<Byte>> {
    seq(|es|, i requires 0 <= i < |es| => Emit(es[i]))
  }

  function MemberBytes(ms: seq<Member>): seq<seq<Byte>> {
    seq(|ms|, i requires 0 <= i < |ms| => MemberPart(ms[i]))
  }

  lemma {:induction false} JoinedFirst(first: seq<Byte>, rest: seq<seq<Byte>>)
    ensures Joined([first] + rest) == first + Joined(rest)
  {
    if rest == [] {
      assert [first][..0] == [];
      assert [first] + rest == [first];
    } else {
      var front, l := rest[..|rest| - 1], rest[|rest| - 1];
      JoinedFirst(first, front);
      assert ([first] + rest)[..|rest|] == [first] + front;
      assert (first + Joined(front)) + l == first + (Joined(front) + l);
    }
  }

  lemma {:induction false} ElementsJoined(es: seq<Value>)
    ensures EmitElements(es) == Joined(ElementBytes(es))
  {
    if es != [] {
      ElementsJoined(es[1..]);
      JoinedFirst(Emit(es[0]), ElementBytes(es[1..]));
      assert ElementBytes(es) == [Emit(es[0])] + ElementBytes(es[1..]);
    }
  }

  function MemberPart(m: Member): seq<Byte> { TextBytes(m.key) + Emit(m.value) }

  lemma MemberIs(m: Member)
    requires m.key != [] && Utf8.Valid(m.key)
    ensures EmitKey(m.key) + Emit(m.value) == MemberPart(m)
  {
    hide Emit;
  }

  lemma {:induction false} MembersJoined(ms: seq<Member>)
    requires forall m :: m in ms ==> m.key != [] && Utf8.Valid(m.key)
    ensures EmitMembers(ms) == Joined(MemberBytes(ms))
  {
    hide MemberPart, Emit, EmitKey;
    if ms != [] {
      MembersJoined(ms[1..]);
      assert ms[0] in ms;
      MemberIs(ms[0]);
      JoinedFirst(MemberPart(ms[0]), MemberBytes(ms[1..]));
      assert MemberBytes(ms) == [MemberPart(ms[0])] + MemberBytes(ms[1..]);
    }
  }

  /** The bytes of every encodable value: a tag, a count where one is needed, and the parts in order. */
  lemma DocumentBytes(v: Value)
    requires Encodable(v)
    ensures Emit(v) ==
            match v
            case Null => [0]
            case Boolean(b) => [if b then 2 else 1]
            case Integer(i) => [3] + Varint.Encode(Varint.ZigZag(i))
            case Unsigned(u) => [9] + Varint.Encode(u)
            case Real(bits) => [4] + LittleEndian(bits, 8)
            case String(t) => TextBytes(t)
            case Binary(bytes) => [6] + Varint.Encode(|bytes|) + bytes
            case Array(es) => [7] + Varint.Encode(|es|) + Joined(ElementBytes(es))
            case Object(ms) => [8] + Varint.Encode(|ms|) + Joined(MemberBytes(ms))
  {
    match v
    case Array(es) => ElementsJoined(es);
    case Object(ms) => MembersJoined(ms);
    case _ =>
  }

  // ----- Frames of the wire -----

  lemma HeaderLayout(kind: Frames.MessageType, flags: U16, length: U32)
    ensures var h := Frames.HeaderBytes(kind, flags, length);
      && h[..4] == [0x54, 0x52, 0x58, 0x46] && h[4] == 1 && h[5] == 0
      && h[6] == (match kind case Hello => 1 case HelloAck => 2 case Request => 3 case Response => 4 case Failure => 5
                  case Ping => 6 case Pong => 7 case Shutdown => 8) && h[7] == 0
      && h[8] == flags % 256 && h[9] == flags / 256 && h[10] == h[11] == 0 && h[12..] == LittleEndian(length, 4)
  {
    TwoBytes(1);
    TwoBytes(Frames.TypeCode(kind));
    TwoBytes(flags);
    TwoBytes(0);
    Placed([0x54, 0x52, 0x58, 0x46], LittleEndian(1, 2), LittleEndian(Frames.TypeCode(kind), 2), LittleEndian(flags, 2),
           LittleEndian(0, 2), LittleEndian(length, 4));
  }

  lemma Placed(a: seq<Byte>, b: seq<Byte>, c: seq<Byte>, d: seq<Byte>, e: seq<Byte>, f: seq<Byte>)
    requires |a| == 4 && |b| == 2 && |c| == 2 && |d| == 2 && |e| == 2
    ensures var h := a + b + c + d + e + f;
      && h[..4] == a && h[4] == b[0] && h[5] == b[1] && h[6] == c[0] && h[7] == c[1] && h[8] == d[0] && h[9] == d[1]
      && h[10] == e[0] && h[11] == e[1] && h[12..] == f
  {
  }

  /**
   * A frame: "TRXF", version 1, the type, the flags, two zero bytes, the body's length, the body, a checksum of all.
   */
  lemma FrameLayout(kind: Frames.MessageType, flags: U16, body: seq<Byte>, crc: seq<Byte> -> U32)
    requires |body| < 0x1_0000_0000
    ensures var f := Frames.FrameBytes(kind, flags, body, crc);
      && |f| == 20 + |body| && f[..16] == Frames.HeaderBytes(kind, flags, |body|) && f[16..16 + |body|] == body
      && FromLittleEndian(f[12..16]) == |body| && FromLittleEndian(f[16 + |body|..]) == crc(f[..16 + |body|])
  {
    ScaleValues();
    HeaderLayout(kind, flags, |body|);
    LittleEndianRoundTrip(|body|, 4);
    hide LittleEndian, FromLittleEndian, Frames.HeaderBytes;
    var h := Frames.HeaderBytes(kind, flags, |body|);
    var f := Frames.FrameBytes(kind, flags, body, crc);
    assert f[..16 + |body|] == h + body && f[16 + |body|..] == LittleEndian(crc(h + body), 4);
    LittleEndianRoundTrip(crc(h + body), 4);
    assert f[12..16] == h[12..];
  }

  lemma TwoBytes(n: U16)
    ensures var s := LittleEndian(n, 2); s[0] == n % 256 && s[1] == n / 256
  {
    assert LittleEndian(n, 2)[1..] == LittleEndian(n / 256, 1);
  }

  // ----- Snapshot files -----

  /** A record of a snapshot: its length, its kind, its payload, and the checksum of kind and payload. */
  lemma RecordLayout(r: SnapshotState.Record, codec: Snapshot.Codec, crc: RecordStream.Checksum)
    requires |codec.encode(r)| + 1 < 0x1_0000_0000
    ensures var payload := codec.encode(r); var f := RecordStream.FrameBytes(Snapshot.FrameOf(r, codec), crc);
      && |f| == |payload| + 9 && FromLittleEndian(f[..4]) == |payload| + 1
      && f[4] == (match r case HeaderEntry(_) => 1 case SourceEntry(_) => 2 case ModuleEntry(_) => 3
                  case PortEntry(_) => 4 case AttachmentEntry(_) => 5 case ThresholdEntry(_) => 6
                  case RuleEntry(_) => 7)
      && f[5..5 + |payload|] == payload
      && FromLittleEndian(f[5 + |payload|..]) == crc(f[4..5 + |payload|])
  {
    ScaleValues();
    var payload := codec.encode(r);
    var body := [SnapshotState.TagOf(r)] + payload;
    LittleEndianRoundTrip(|body|, 4);
    LittleEndianRoundTrip(crc(body), 4);
    var f := RecordStream.FrameBytes(Snapshot.FrameOf(r, codec), crc);
    hide LittleEndian, FromLittleEndian, RecordStream.FrameBytes;
    RecordBytes(r, codec, crc);
    Between(LittleEndian(|body|, 4), body, LittleEndian(crc(body), 4));
    assert body[1..] == payload && f[4..5 + |payload|] == body;
    assert f[5..5 + |payload|] == body[1..];
  }

  lemma RecordBytes(r: SnapshotState.Record, codec: Snapshot.Codec, crc: RecordStream.Checksum)
    ensures var body := [SnapshotState.TagOf(r)] + codec.encode(r);
      RecordStream.FrameBytes(Snapshot.FrameOf(r, codec), crc)
        == LittleEndian(|body|, 4) + body + LittleEndian(crc(body), 4)
  {
  }

  lemma Between(a: seq<Byte>, b: seq<Byte>, c: seq<Byte>)
    ensures var f := a + b + c;
      f[..|a|] == a && f[|a|..|a| + |b|] == b && f[|a| + |b|..] == c
  {
  }

  /** The 32 bytes in front: "TRXRSNAP", version 1, six zero bytes, the length of the region, the generation. */
  lemma FileHeaderLayout(length: U64, generation: U64)
    ensures var h := Snapshot.FileHeader(length, generation);
      && |h| == 32
      && h[..8] == [0x54, 0x52, 0x58, 0x52, 0x53, 0x4E, 0x41, 0x50] && h[8..16] == [1, 0, 0, 0, 0, 0, 0, 0]
      && FromLittleEndian(h[16..24]) == length && FromLittleEndian(h[24..32]) == generation
  {
    ScaleValues();
    LittleEndianRoundTrip(length, 8);
    LittleEndianRoundTrip(generation, 8);
    VersionBytes();
    hide LittleEndian, FromLittleEndian;
    HeadLaid(Snapshot.SNAPSHOT_MAGIC, LittleEndian(1, 2), LittleEndian(0, 2), LittleEndian(0, 4),
             LittleEndian(length, 8), LittleEndian(generation, 8));
  }

  lemma VersionBytes()
    ensures LittleEndian(1, 2) + LittleEndian(0, 2) + LittleEndian(0, 4) == [1, 0, 0, 0, 0, 0, 0, 0]
  {
    assert LittleEndian(1, 2) == [1, 0] && LittleEndian(0, 2) == [0, 0];
    assert LittleEndian(0, 4) == [0] + LittleEndian(0, 3) && LittleEndian(0, 3) == [0] + LittleEndian(0, 2);
  }

  /** The 20 bytes behind: "TRXREOF1", the next sequence, the checksum of the region. */
  lemma FileTrailerLayout(region: seq<Byte>, nextSequence: U64, crc: RecordStream.Checksum)
    ensures var t := Snapshot.FileTrailer(region, nextSequence, crc);
      && |t| == 20 && t[..8] == [0x54, 0x52, 0x58, 0x52, 0x45, 0x4F, 0x46, 0x31]
      && FromLittleEndian(t[8..16]) == nextSequence && FromLittleEndian(t[16..]) == crc(region)
  {
    ScaleValues();
    LittleEndianRoundTrip(nextSequence, 8);
    LittleEndianRoundTrip(crc(region), 4);
    hide LittleEndian, FromLittleEndian;
    Between(Snapshot.TRAILER_MAGIC, LittleEndian(nextSequence, 8), LittleEndian(crc(region), 4));
  }

  /** A snapshot: the header, the region, the trailer. */
  lemma FileLayout(region: seq<Byte>, generation: U64, nextSequence: U64, crc: RecordStream.Checksum)
    ensures var f := Snapshot.FileBytes(region, generation, nextSequence, crc); var end := 32 + |region|;
      && |f| == end + 20 && f[32..end] == region
      && f[..32] == Snapshot.FileHeader(|region|, generation)
      && f[end..] == Snapshot.FileTrailer(region, nextSequence, crc)
  {
    hide Snapshot.FileHeader, Snapshot.FileTrailer;
    Between(Snapshot.FileHeader(|region|, generation), region, Snapshot.FileTrailer(region, nextSequence, crc));
  }

  lemma HeadLaid(a: seq<Byte>, b: seq<Byte>, c: seq<Byte>, d: seq<Byte>, e: seq<Byte>, g: seq<Byte>)
    requires |a| == 8 && |b| == 2 && |c| == 2 && |d| == 4 && |e| == 8 && |g| == 8
    ensures var h := a + b + c + d + e + g;
      h[..8] == a && h[8..16] == b + c + d && h[16..24] == e && h[24..32] == g
  {
  }

  // ----- The padded message -----

  lemma Laid(m: seq<Byte>, zeros: seq<Byte>, tail: seq<Byte>, i: nat)
    requires |tail| == 8
    ensures var p := m + [0x80] + zeros + tail;
      && p[..|m|] == m && p[|m|] == 0x80
      && (|m| < i < |p| - 8 ==> p[i] == zeros[i - |m| - 1])
      && (i < 8 ==> p[|p| - 1 - i] == tail[7 - i])
  {
  }

  /**
   * Section 5.1.1 of FIPS 180-4: the message, a one bit, zeros, and the length in bits as a 64-bit big-endian number.
   */
  lemma PadExactly(m: seq<Byte>, i: nat)
    requires |m| * 8 < 0x1_0000_0000_0000_0000
    ensures var p := Sha256.Pad(m);
      && |p| % 64 == 0 && |m| + 9 <= |p| < |m| + 73 && p[..|m|] == m && p[|m|] == 0x80
      && (|m| < i < |p| - 8 ==> p[i] == 0)
      && (i < 8 ==> p[|p| - 1 - i] == |m| * 8 / Scale(i) % 256)
  {
    hide Sha256.BigEndian, Sha256.PadZeros, Scale;
    var bits := |m| * 8;
    assert Sha256.BitLength(|m|) == bits;
    PadRoom(|m|);
    Laid(m, Sha256.Zeros(Sha256.PadZeros(|m|)), Sha256.BigEndian(bits, 8), i);
    if i < 8 {
      BigEndianDigits(bits, 8, i);
    }
  }

  lemma PadRoom(n: nat)
    ensures (n + 1 + Sha256.PadZeros(n) + 8) % 64 == 0 && Sha256.PadZeros(n) < 64
  {
    Sha256.PadZerosLeast(n, 0);
  }

  // ----- Text -----

  lemma {:induction false} LessAt(a: Text, b: Text, k: nat)
    requires k < |a| && k < |b| && a[k] < b[k] && forall i :: 0 <= i < k ==> a[i] == b[i]
    ensures TextLess(a, b)
  {
    if k > 0 {
      LessAt(a[1..], b[1..], k - 1);
    }
  }

  /** The order of texts: at the first byte where they differ, or by length when one begins the other. */
  lemma {:induction false} TextOrderExactly(a: Text, b: Text)
    ensures TextLess(a, b) <==>
            exists k: nat ::
              && k <= |a| && k < |b| && a[..k] == b[..k] && (k == |a| || (k < |a| && a[k] < b[k]))
  {
    if k: nat :| k <= |a| && k < |b| && a[..k] == b[..k] && (k == |a| || (k < |a| && a[k] < b[k])) {
      if k == |a| {
        assert a == b[..k];
        PrefixIsLess(a, b);
      } else {
        forall i | 0 <= i < k ensures a[i] == b[i] {
          assert a[..k][i] == b[..k][i];
        }
        LessAt(a, b, k);
      }
    }
    if TextLess(a, b) {
      var k := DifferenceOf(a, b);
    }
  }

  lemma {:induction false} PrefixIsLess(a: Text, b: Text)
    requires a < b
    ensures TextLess(a, b)
  {
    if a != [] {
      PrefixIsLess(a[1..], b[1..]);
    }
  }

  lemma {:induction false} DifferenceOf(a: Text, b: Text) returns (k: nat)
    requires TextLess(a, b)
    ensures k <= |a| && k < |b| && a[..k] == b[..k] && (k == |a| || a[k] < b[k])
  {
    if a == [] || a[0] != b[0] {
      k := 0;
    } else {
      var i := DifferenceOf(a[1..], b[1..]);
      k := i + 1;
      assert a[..k] == [a[0]] + a[1..][..i] && b[..k] == [b[0]] + b[1..][..i];
    }
  }

  lemma UnitLengths(c: Utf8.Scalar)
    ensures |Utf8.EncodeScalar(c)| == if c < 0x80 then 1 else if c < 0x800 then 2 else if c < 0x1_0000 then 3 else 4
  {
  }

  lemma LeadsInOrder(c: Utf8.Scalar, d: Utf8.Scalar)
    requires c < d && |Utf8.EncodeScalar(c)| != |Utf8.EncodeScalar(d)|
    ensures Utf8.EncodeScalar(c)[0] < Utf8.EncodeScalar(d)[0]
  {
  }

  lemma LastDigit(c: int, d: int)
    requires 0 <= c < d
    ensures c / 0x40 < d / 0x40 || (c / 0x40 == d / 0x40 && c % 0x40 < d % 0x40)
  {
  }

  lemma Shifted(c: int)
    requires c >= 0
    ensures c / 0x40 / 0x40 == c / 0x1000 && c / 0x1000 / 0x40 == c / 0x4_0000
  {
  }

  lemma TwoInOrder(c: Utf8.Scalar, d: Utf8.Scalar)
    requires 0x80 <= c < d < 0x800
    ensures TextLess(Utf8.EncodeScalar(c), Utf8.EncodeScalar(d))
  {
    LastDigit(c, d);
    LessAt(Utf8.EncodeScalar(c), Utf8.EncodeScalar(d), if c / 0x40 < d / 0x40 then 0 else 1);
  }

  /** The tail of a longer unit: two groups of six bits after whatever stands before them. */
  lemma TailInOrder(head: Text, c: int, d: int)
    requires 0 <= c < d && c / 0x1000 == d / 0x1000
    ensures TextLess(head + [0x80 + c / 0x40 % 0x40, 0x80 + c % 0x40], head + [0x80 + d / 0x40 % 0x40, 0x80 + d % 0x40])
  {
    Shifted(c);
    Shifted(d);
    LastDigit(c, d);
    var a, b := head + [0x80 + c / 0x40 % 0x40, 0x80 + c % 0x40], head + [0x80 + d / 0x40 % 0x40, 0x80 + d % 0x40];
    if c / 0x40 < d / 0x40 {
      LastDigit(c / 0x40, d / 0x40);
      LessAt(a, b, |head|);
    } else {
      LessAt(a, b, |head| + 1);
    }
  }

  lemma ThreeInOrder(c: Utf8.Scalar, d: Utf8.Scalar)
    requires 0x800 <= c < d < 0x1_0000
    ensures TextLess(Utf8.EncodeScalar(c), Utf8.EncodeScalar(d))
  {
    var a, b := Utf8.EncodeScalar(c), Utf8.EncodeScalar(d);
    if c / 0x1000 < d / 0x1000 {
      LessAt(a, b, 0);
    } else {
      TailInOrder([0xE0 + c / 0x1000], c, d);
      assert a == [0xE0 + c / 0x1000] + [0x80 + c / 0x40 % 0x40, 0x80 + c % 0x40];
      assert b == [0xE0 + c / 0x1000] + [0x80 + d / 0x40 % 0x40, 0x80 + d % 0x40];
    }
  }

  lemma FourInOrder(c: Utf8.Scalar, d: Utf8.Scalar)
    requires 0x1_0000 <= c < d
    ensures TextLess(Utf8.EncodeScalar(c), Utf8.EncodeScalar(d))
  {
    var a, b := Utf8.EncodeScalar(c), Utf8.EncodeScalar(d);
    Shifted(c);
    Shifted(d);
    if c / 0x1000 < d / 0x1000 {
      LastDigit(c / 0x1000, d / 0x1000);
      LessAt(a, b, if c / 0x4_0000 < d / 0x4_0000 then 0 else 1);
    } else {
      var head := [0xF0 + c / 0x4_0000, 0x80 + c / 0x1000 % 0x40];
      TailInOrder(head, c, d);
      assert a == head + [0x80 + c / 0x40 % 0x40, 0x80 + c % 0x40];
      assert b == head + [0x80 + d / 0x40 % 0x40, 0x80 + d % 0x40];
    }
  }

  /** Byte order of encoded text is code point order. */
  lemma ScalarsInOrder(c: Utf8.Scalar, d: Utf8.Scalar)
    requires c < d
    ensures TextLess(Utf8.EncodeScalar(c), Utf8.EncodeScalar(d))
  {
    var a, b := Utf8.EncodeScalar(c), Utf8.EncodeScalar(d);
    UnitLengths(c);
    UnitLengths(d);
    if |a| != |b| {
      LeadsInOrder(c, d);
      LessAt(a, b, 0);
    } else if |a| == 1 {
      LessAt(a, b, 0);
    } else if |a| == 2 {
      TwoInOrder(c, d);
    } else if |a| == 3 {
      ThreeInOrder(c, d);
    } else {
      FourInOrder(c, d);
    }
  }
}
