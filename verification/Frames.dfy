/** The framed transport of src/wire.cpp. */
module Frames {
  // The checksum is a parameter: every statement holds for CRC-32C and for any other 32-bit function of the bytes.

  import opened Bytes
  import opened Canonical
  import CanonicalCodec

  datatype MessageType = Hello | HelloAck | Request | Response | Failure | Ping | Pong | Shutdown

  datatype Header = Header(kind: MessageType, flags: U16, bodyLength: U32)

  datatype Frame = Frame(kind: MessageType, flags: U16, body: Value)

  const MAGIC: seq<Byte> := [0x54, 0x52, 0x58, 0x46]
  const PROTOCOL_VERSION: U16 := 1
  const HEADER_BYTES := 16
  const TRAILER_BYTES := 4

  function TypeCode(kind: MessageType): U16 {
    match kind
    case Hello => 1
    case HelloAck => 2
    case Request => 3
    case Response => 4
    case Failure => 5
    case Ping => 6
    case Pong => 7
    case Shutdown => 8
  }

  function TypeOf(code: nat): Option<MessageType> {
    if code == 1 then Some(Hello)
    else if code == 2 then Some(HelloAck)
    else if code == 3 then Some(Request)
    else if code == 4 then Some(Response)
    else if code == 5 then Some(Failure)
    else if code == 6 then Some(Ping)
    else if code == 7 then Some(Pong)
    else if code == 8 then Some(Shutdown)
    else None
  }

  function HeaderBytes(kind: MessageType, flags: U16, bodyLength: nat): (s: seq<Byte>)
    ensures |s| == HEADER_BYTES
  {
    MAGIC + LittleEndian(PROTOCOL_VERSION, 2) + LittleEndian(TypeCode(kind), 2)
    + LittleEndian(flags, 2) + LittleEndian(0, 2) + LittleEndian(bodyLength, 4)
  }

  function FrameBytes(kind: MessageType, flags: U16, body: seq<Byte>, crc: seq<Byte> -> U32): seq<Byte> {
    var front := HeaderBytes(kind, flags, |body|) + body;
    front + LittleEndian(crc(front), 4)
  }

  /** `encode_frame`: the frame grows by appending. */
  method EncodeFrame(kind: MessageType, flags: U16, body: seq<Byte>, crc: seq<Byte> -> U32) returns (frame: seq<Byte>)
    ensures frame == FrameBytes(kind, flags, body, crc)
  {
    frame := MAGIC;
    frame := frame + LittleEndian(PROTOCOL_VERSION, 2);
    frame := frame + LittleEndian(TypeCode(kind), 2);
    frame := frame + LittleEndian(flags, 2);
    frame := frame + LittleEndian(0, 2);
    frame := frame + LittleEndian(|body|, 4);
    frame := frame + body;
    frame := frame + LittleEndian(crc(frame), 4);
  }

  /** `parse_frame_header`: magic, version, type, reserved field, length bounds. */
  function ParseHeader(h: seq<Byte>, maxBodyBytes: U32): Result<Header>
    requires |h| == HEADER_BYTES
  {
    ScaleValues();
    if h[..4] != MAGIC then Err(Malformed)
    else if FromLittleEndian(h[4..6]) != PROTOCOL_VERSION then Err(Malformed)
    else
      var kind := TypeOf(FromLittleEndian(h[6..8]));
      if kind == None then Err(Malformed)
      else if FromLittleEndian(h[10..12]) != 0 then Err(Malformed)
      else
        var bodyLength := FromLittleEndian(h[12..16]);
        if bodyLength > maxBodyBytes then Err(CapacityExceeded)
        else if bodyLength == 0 then Err(Malformed)
        else Ok(Header(kind.value, FromLittleEndian(h[8..10]), bodyLength))
  }

  function ParseFrame(b: seq<Byte>, maxBodyBytes: U32, lim: Limits, crc: seq<Byte> -> U32): Result<Frame> {
    if |b| < HEADER_BYTES + TRAILER_BYTES then Err(Corrupt)
    else
      var header :- ParseHeader(b[..HEADER_BYTES], maxBodyBytes);
      if |b| != HEADER_BYTES + header.bodyLength + TRAILER_BYTES then Err(Corrupt)
      else
        var front := b[..|b| - TRAILER_BYTES];
        if crc(front) != FromLittleEndian(b[|b| - TRAILER_BYTES..]) then Err(Corrupt)
        else
          var body :- ReadDocument(b[HEADER_BYTES..|b| - TRAILER_BYTES], lim);
          Ok(Frame(header.kind, header.flags, body))
  }

  /** `decode_frame`, with the body read by the document reader. */
  method DecodeFrame(b: seq<Byte>, maxBodyBytes: U32, lim: Limits, crc: seq<Byte> -> U32) returns (r: Result<Frame>)
    ensures r == ParseFrame(b, maxBodyBytes, lim, crc)
  {
    if |b| < HEADER_BYTES + TRAILER_BYTES {
      return Err(Corrupt);
    }
    var header := ParseHeader(b[..HEADER_BYTES], maxBodyBytes);
    if header.Err? {
      return Err(header.code);
    }
    if |b| != HEADER_BYTES + header.value.bodyLength + TRAILER_BYTES {
      return Err(Corrupt);
    }
    if crc(b[..|b| - TRAILER_BYTES]) != FromLittleEndian(b[|b| - TRAILER_BYTES..]) {
      return Err(Corrupt);
    }
    var reader := new CanonicalCodec.CanonicalReader(b[HEADER_BYTES..|b| - TRAILER_BYTES], lim);
    var document := reader.ReadWholeDocument();
    r := if document.Ok? then Ok(Frame(header.value.kind, header.value.flags, document.value)) else Err(document.code);
  }

  lemma TypeCodes(kind: MessageType, code: nat)
    ensures TypeOf(code) == Some(kind) <==> code == TypeCode(kind)
  {
  }

  lemma HeaderSlices(kind: MessageType, flags: U16, bodyLength: nat)
    ensures var h := HeaderBytes(kind, flags, bodyLength);
            && h[..4] == MAGIC
            && h[4..6] == LittleEndian(PROTOCOL_VERSION, 2)
            && h[6..8] == LittleEndian(TypeCode(kind), 2)
            && h[8..10] == LittleEndian(flags, 2)
            && h[10..12] == LittleEndian(0, 2)
            && h[12..16] == LittleEndian(bodyLength, 4)
  {
    hide LittleEndian;
  }

  lemma HeaderComplete(kind: MessageType, flags: U16, bodyLength: U32, maxBodyBytes: U32)
    requires 0 < bodyLength <= maxBodyBytes
    ensures ParseHeader(HeaderBytes(kind, flags, bodyLength), maxBodyBytes) == Ok(Header(kind, flags, bodyLength))
  {
    hide LittleEndian, FromLittleEndian, HeaderBytes;
    HeaderSlices(kind, flags, bodyLength);
    ScaleValues();
    LittleEndianRoundTrip(PROTOCOL_VERSION, 2);
    LittleEndianRoundTrip(TypeCode(kind), 2);
    LittleEndianRoundTrip(flags, 2);
    LittleEndianRoundTrip(0, 2);
    LittleEndianRoundTrip(bodyLength, 4);
    TypeCodes(kind, TypeCode(kind));
  }

  lemma HeaderSound(h: seq<Byte>, maxBodyBytes: U32)
    requires |h| == HEADER_BYTES && ParseHeader(h, maxBodyBytes).Ok?
    ensures var p := ParseHeader(h, maxBodyBytes).value;
            h == HeaderBytes(p.kind, p.flags, p.bodyLength) && 0 < p.bodyLength <= maxBodyBytes
  {
    hide LittleEndian, FromLittleEndian;
    LittleEndianUnique(h[4..6]);
    LittleEndianUnique(h[6..8]);
    LittleEndianUnique(h[8..10]);
    LittleEndianUnique(h[10..12]);
    LittleEndianUnique(h[12..16]);
    TypeCodes(ParseHeader(h, maxBodyBytes).value.kind, FromLittleEndian(h[6..8]));
    assert h == h[..4] + h[4..6] + h[6..8] + h[8..10] + h[10..12] + h[12..16];
  }

  /** What a frame must satisfy to be accepted. */
  ghost predicate FrameFits(f: Frame, maxBodyBytes: U32, lim: Limits) {
    && |Emit(f.body)| <= maxBodyBytes
    && |Emit(f.body)| <= lim.maxDocumentBytes
    && Fits(f.body, lim, 0)
    && Nodes(f.body) <= lim.maxNodes
  }

  lemma DecodedIsEncoded(b: seq<Byte>, maxBodyBytes: U32, lim: Limits, crc: seq<Byte> -> U32)
    requires ParseFrame(b, maxBodyBytes, lim, crc).Ok?
    ensures var f := ParseFrame(b, maxBodyBytes, lim, crc).value;
            b == FrameBytes(f.kind, f.flags, Emit(f.body), crc) && FrameFits(f, maxBodyBytes, lim)
  {
    hide LittleEndian, FromLittleEndian, HeaderBytes, ParseHeader, ReadDocument, Emit, Fits, Nodes;
    var f := ParseFrame(b, maxBodyBytes, lim, crc).value;
    var front, tail := b[..|b| - TRAILER_BYTES], b[|b| - TRAILER_BYTES..];
    HeaderSound(b[..HEADER_BYTES], maxBodyBytes);
    AcceptedIffEncoded(b[HEADER_BYTES..|b| - TRAILER_BYTES], lim, f.body);
    LittleEndianUnique(tail);
    assert front == b[..HEADER_BYTES] + Emit(f.body);
    assert b == front + tail;
  }

  lemma EncodedDecodes(f: Frame, maxBodyBytes: U32, lim: Limits, crc: seq<Byte> -> U32)
    requires FrameFits(f, maxBodyBytes, lim)
    ensures ParseFrame(FrameBytes(f.kind, f.flags, Emit(f.body), crc), maxBodyBytes, lim, crc) == Ok(f)
  {
    FitsIsEncodable(f.body, lim, 0);
    NodesWithinBytes(f.body);
    hide LittleEndian, FromLittleEndian, HeaderBytes, ParseHeader, ReadDocument, Emit, Fits, Nodes;
    var body := Emit(f.body);
    var b := FrameBytes(f.kind, f.flags, body, crc);
    var front := HeaderBytes(f.kind, f.flags, |body|) + body;
    HeaderComplete(f.kind, f.flags, |body|, maxBodyBytes);
    ScaleValues();
    LittleEndianRoundTrip(crc(front), 4);
    AcceptedIffEncoded(body, lim, f.body);
    assert b[..HEADER_BYTES] == HeaderBytes(f.kind, f.flags, |body|);
    assert b[..|b| - TRAILER_BYTES] == front && b[|b| - TRAILER_BYTES..] == LittleEndian(crc(front), 4);
    assert b[HEADER_BYTES..|b| - TRAILER_BYTES] == body;
  }

  /** Every accepted frame is byte for byte what `encode_frame` builds, and conversely. */
  lemma AcceptedIffFramed(b: seq<Byte>, f: Frame, maxBodyBytes: U32, lim: Limits, crc: seq<Byte> -> U32)
    ensures ParseFrame(b, maxBodyBytes, lim, crc) == Ok(f)
       <==> b == FrameBytes(f.kind, f.flags, Emit(f.body), crc) && FrameFits(f, maxBodyBytes, lim)
  {
    if ParseFrame(b, maxBodyBytes, lim, crc) == Ok(f) {
      DecodedIsEncoded(b, maxBodyBytes, lim, crc);
    }
    if b == FrameBytes(f.kind, f.flags, Emit(f.body), crc) && FrameFits(f, maxBodyBytes, lim) {
      EncodedDecodes(f, maxBodyBytes, lim, crc);
    }
  }
}
