/** Snapshot files whose records are the documents the code writes: which saved files read back at all. */
module SnapshotDocuments {
  import opened Bytes
  import Utf8
  import Canonical
  import opened ObjectValue
  import opened Documents
  import opened RegistryState
  import opened Mutations
  import opened RegistryInvariant
  import opened Runs
  import opened RecordStream
  import opened SnapshotState
  import opened SnapshotRecovery
  import opened Snapshot
  import opened SnapshotTheorems
  import opened SnapshotCuts
  import opened RecordDocuments

  // ----- The codec -----

  function EncodeRecord(r: Record, d: Doubles): seq<Byte> { EncodeDocument(DocOf(r, d)) }

  function DecodeRecord(kind: Byte, payload: seq<Byte>, d: Doubles): Result<Record> {
    var document :- DecodeDocument(payload);
    DecodeKind(kind, document, d)
  }

  /** All seven kinds of record as documents; d says how doubles are numbers. */
  function DocumentCodec(d: Doubles): Codec {
    Codec((r: Record) => EncodeRecord(r, d), (kind: Byte, payload: seq<Byte>) => DecodeRecord(kind, payload, d))
  }

  /**
   * What a maintainer can check before saving: UTF-8 texts, numbers in range, and lengths within the document limits.
   */
  predicate ReadsBack(r: Record, d: Doubles) { TextsOf(r) && RangesOf(r) && InLimits(DocOf(r, d)) }

  predicate FitsFrame(r: Record, d: Doubles) { |EncodeRecord(r, d)| + 1 <= MAX_RECORD_BYTES }

  /** One record: it is returned as it was exactly when it reads back, and refused otherwise. */
  lemma RecordReadsExactly(r: Record, d: Doubles)
    requires TypedOf(r, d) && |EncodeRecord(r, d)| <= 0x1_0000_0000
    ensures DecodeRecord(TagOf(r), EncodeRecord(r, d), d) == Ok(r) <==> ReadsBack(r, d)
    ensures DecodeRecord(TagOf(r), EncodeRecord(r, d), d).Err? <==> !ReadsBack(r, d)
  {
    hide DocOf, DecodeKind, TypedOf, TextsOf, RangesOf, InLimits, EncodeDocument, DecodeDocument, Canonical.Encodable,
         InKeyOrder;
    RecordShape(r, d);
    DocumentReadsExactly(DocOf(r, d));
    RecordRead(r, d);
  }

  /** The record region and the file a save writes. */
  ghost function StreamOf(st: State, l: Listing, d: Doubles, crc: Checksum): seq<Byte>
    requires ListingOf(l, st)
  {
    StreamBytes(FramesOf(StateRecords(st, l), DocumentCodec(d)), crc)
  }

  ghost function FileOf(st: State, l: Listing, d: Doubles, crc: Checksum): seq<Byte>
    requires ListingOf(l, st)
  {
    FileBytes(StreamOf(st, l, d, crc), st.generation, st.nextSequence, crc)
  }

  /** The file is not longer than a reader accepts. */
  ghost predicate FileFits(st: State, l: Listing, d: Doubles, crc: Checksum)
    requires ListingOf(l, st)
  {
    |StreamOf(st, l, d, crc)| <= MAX_SNAPSHOT_BYTES - HEADER_BYTES
  }

  ghost predicate AllTyped(st: State, l: Listing, d: Doubles)
    requires ListingOf(l, st)
  {
    forall r :: r in StateRecords(st, l) ==> TypedOf(r, d)
  }

  ghost predicate AllReadBack(st: State, l: Listing, d: Doubles)
    requires ListingOf(l, st)
  {
    forall r :: r in StateRecords(st, l) ==> ReadsBack(r, d)
  }

  ghost predicate AllFit(st: State, l: Listing, d: Doubles)
    requires ListingOf(l, st)
  {
    forall r :: r in StateRecords(st, l) ==> FitsFrame(r, d)
  }

  /**
   * A state whose records all read back is readable: the general theorems about snapshots apply to it, and only then.
   */
  lemma DocumentsReadable(st: State, l: Listing, d: Doubles)
    requires ListingOf(l, st) && AllTyped(st, l, d)
    ensures Readable(DocumentCodec(d), StateRecords(st, l)) <==> AllReadBack(st, l, d) && AllFit(st, l, d)
  {
    hide ListingOf, StateRecords, EncodeRecord, DecodeRecord, TypedOf, ReadsBack;
    forall r | r in StateRecords(st, l) && FitsFrame(r, d)
      ensures DecodeRecord(TagOf(r), EncodeRecord(r, d), d) == Ok(r) <==> ReadsBack(r, d)
    {
      RecordReadsExactly(r, d);
    }
  }

  // ----- One record that does not come back -----

  /** The first record that does not come back, if there is one. */
  lemma {:induction false} FirstLost(records: seq<Record>, d: Doubles) returns (i: nat)
    requires exists r :: r in records && !(ReadsBack(r, d) && FitsFrame(r, d))
    ensures i < |records| && !(ReadsBack(records[i], d) && FitsFrame(records[i], d))
    ensures forall j :: 0 <= j < i ==> ReadsBack(records[j], d) && FitsFrame(records[j], d)
  {
    hide ReadsBack, FitsFrame;
    var front := records[..|records| - 1];
    assert records == front + [records[|records| - 1]];
    if exists r :: r in front && !(ReadsBack(r, d) && FitsFrame(r, d)) {
      i := FirstLost(front, d);
    } else {
      i := |records| - 1;
      forall j | 0 <= j < i ensures ReadsBack(records[j], d) && FitsFrame(records[j], d) {
        assert front[j] in front;
      }
    }
  }

  lemma {:induction false} PayloadWithin(frames: seq<Frame>, i: nat)
    requires i < |frames|
    ensures |frames[i].payload| + 9 <= SizeOf(frames)
  {
    hide SizeOf;
    assert frames == [frames[0]] + frames[1..];
    SizeFirst(frames[0], frames[1..]);
    if i > 0 {
      PayloadWithin(frames[1..], i - 1);
    }
  }

  /** Every frame of a stream that fits a file carries less than 2^32 bytes. */
  lemma RecordBytes(records: seq<Record>, d: Doubles, i: nat, crc: Checksum)
    requires i < |records|
    requires |StreamBytes(FramesOf(records, DocumentCodec(d)), crc)| <= MAX_SNAPSHOT_BYTES - HEADER_BYTES
    ensures |EncodeRecord(records[i], d)| <= MAX_SNAPSHOT_BYTES
  {
    hide EncodeRecord, DecodeRecord, StreamBytes, SizeOf;
    var frames := FramesOf(records, DocumentCodec(d));
    StreamSize(frames, crc);
    PayloadWithin(frames, i);
  }

  lemma PrefixDecodes(records: seq<Record>, d: Doubles, i: nat)
    requires i <= |records| && forall r :: r in records ==> TypedOf(r, d)
    requires forall j :: 0 <= j < i ==> ReadsBack(records[j], d) && FitsFrame(records[j], d)
    ensures var codec := DocumentCodec(d);
      var frames := FramesOf(records, codec);
      Decodes(codec, frames[..i], records[..i]) && forall f :: f in frames[..i] ==> Fits(f)
  {
    hide EncodeRecord, DecodeRecord, TypedOf, ReadsBack;
    var codec := DocumentCodec(d);
    var frames := FramesOf(records, codec);
    forall j | 0 <= j < i
      ensures codec.decode(frames[j].kind, frames[j].payload) == Ok(records[j]) && Fits(frames[j])
    {
      assert records[j] in records;
      RecordReadsExactly(records[j], d);
    }
  }

  function Start(g: nat): Parsed { Parsed(EMPTY_STATE.(generation := g), false, 0, 0, []) }

  /** An intact record that does not read back fails the parse, whether or not tails may be dropped. */
  lemma LostRecordFails(st: State, l: Listing, i: nat, allowTail: bool, d: Doubles, crc: Checksum)
    requires Good(st) && st.nextSequence >= 1 && ListingOf(l, st) && AllTyped(st, l, d) && i < |StateRecords(st, l)|
    requires forall j :: 0 <= j < i ==> ReadsBack(StateRecords(st, l)[j], d) && FitsFrame(StateRecords(st, l)[j], d)
    requires FitsFrame(StateRecords(st, l)[i], d) && !ReadsBack(StateRecords(st, l)[i], d)
    ensures ParseFrom(StreamOf(st, l, d, crc), 0, Start(st.generation), st.generation, allowTail, DocumentCodec(d),
                      crc).Err?
  {
    hide ListingOf, StateRecords, ReadsBack, TypedOf, EncodeRecord, DecodeRecord, Good, StreamBytes, SizeOf, GoodFrames,
         ParseFrom, Fold, Total;
    var codec, records := DocumentCodec(d), StateRecords(st, l);
    var frames := FramesOf(records, codec);
    var region := StreamBytes(frames, crc);
    PrefixDecodes(records, d, i);
    RecordReadsExactly(records[i], d);
    var front, rest := frames[..i + 1], frames[i + 1..];
    assert frames == front + rest && front == frames[..i] + [frames[i]];
    StreamAppend(front, rest, crc);
    IntactPrefix([], front, StreamBytes(rest, crc), crc);
    assert [] + StreamBytes(front, crc) + StreamBytes(rest, crc) == region;
    var good := GoodFrames(region, 0, crc);
    assert good[..i] == frames[..i] && good[i] == frames[i] && |records[..i]| == i;
    GoodMeans(st);
    RecordsShape(st, l);
    StateAfterFold(st, l, i, st.generation, st.nextSequence);
    ParseFails(region, 0, Start(st.generation), st.generation, allowTail, codec, crc, records[..i],
               codec.decode(frames[i].kind, frames[i].payload).code);
  }

  /** A record too long for the reader ends the parse there: the records behind it are dropped, or the file refused. */
  lemma LongRecordEnds(st: State, l: Listing, i: nat, allowTail: bool, d: Doubles, crc: Checksum)
    requires Good(st) && st.nextSequence >= 1 && ListingOf(l, st) && AllTyped(st, l, d) && i < |StateRecords(st, l)|
    requires forall j :: 0 <= j < i ==> ReadsBack(StateRecords(st, l)[j], d) && FitsFrame(StateRecords(st, l)[j], d)
    requires !FitsFrame(StateRecords(st, l)[i], d)
    requires FileFits(st, l, d, crc)
    ensures var r := ParseFrom(StreamOf(st, l, d, crc), 0, Start(st.generation), st.generation, allowTail,
                               DocumentCodec(d), crc);
      if allowTail then r.Ok? && r.value.recovered && r.value.dropped > 0 && r.value.records == i else r.Err?
  {
    hide ListingOf, StateRecords, ReadsBack, TypedOf, EncodeRecord, DecodeRecord, Good, StreamBytes, FrameBytes, SizeOf,
         GoodFrames, NextFrame, ParseFrom, Fold, Total, StateAfter;
    var codec, records := DocumentCodec(d), StateRecords(st, l);
    var frames := FramesOf(records, codec);
    var region := StreamBytes(frames, crc);
    var front, f, rest := frames[..i], frames[i], frames[i + 1..];
    PrefixDecodes(records, d, i);
    RecordBytes(records, d, i, crc);
    assert frames == (front + [f]) + rest;
    StreamAppend(front + [f], rest, crc);
    StreamLast(front, f, crc);
    StreamSize(front, crc);
    OversizedFrameEndsStream(StreamBytes(front, crc), f, StreamBytes(rest, crc), crc);
    FrameLength(f, crc);
    TornFrames(region, frames, i, crc);
    GoodMeans(st);
    RecordsShape(st, l);
    StateAfterFold(st, l, i, st.generation, st.nextSequence);
    ParseIsFold(region, 0, Start(st.generation), st.generation, allowTail, codec, crc, records[..i],
                StateAfter(st, l, i, st.generation));
  }

  // ----- Whole files -----

  /**
   * An intact saved file reads back, to the very state that was written, exactly when every record does: all stored
   * texts are UTF-8, all stored numbers in range, and every record within the limits. Otherwise, unless a record is too
   * long for the reader, the parse fails even with tail recovery on: the checksums are right, so nothing is dropped.
   */
  lemma FileReadsBackExactly(st: State, l: Listing, o: Options, d: Doubles, crc: Checksum)
    requires Good(st) && st.nextSequence >= 1 && ListingOf(l, st) && AllTyped(st, l, d)
    requires FileFits(st, l, d, crc)
    ensures var r := ParseSnapshot(FileOf(st, l, d, crc), o, DocumentCodec(d), crc);
      && (r == Ok(Parsed(st, false, 0, 1 + Total(st, l), StreamOf(st, l, d, crc))) <==>
          AllReadBack(st, l, d) && AllFit(st, l, d))
      && (AllFit(st, l, d) && !AllReadBack(st, l, d) ==> r.Err?)
      && (!AllFit(st, l, d) || !AllReadBack(st, l, d) ==> r.Err? || (r.value.recovered && r.value.dropped > 0))
  {
    hide ListingOf, StateRecords, ReadsBack, FitsFrame, TypedOf, EncodeRecord, DecodeRecord, Good, StreamBytes,
         FramesOf, FileBytes, ParseSnapshot, ParseFrom, Total, Start, Readable, AllTyped;
    var codec, records := DocumentCodec(d), StateRecords(st, l);
    var stream := StreamOf(st, l, d, crc);
    GenerationFits(st, l, d);
    DocumentsReadable(st, l, d);
    if AllReadBack(st, l, d) && AllFit(st, l, d) {
      SaveParseRoundTrip(st, l, o, codec, crc);
    } else {
      var i := FirstLost(records, d);
      if FitsFrame(records[i], d) {
        LostRecordFails(st, l, i, o.allowTailRecovery, d, crc);
      } else {
        assert records[i] in records;
        LongRecordEnds(st, l, i, o.allowTailRecovery, d, crc);
      }
      ParseLeftShort(stream, st.generation, st.nextSequence, o, codec, crc);
    }
  }

  lemma GenerationFits(st: State, l: Listing, d: Doubles)
    requires ListingOf(l, st) && AllTyped(st, l, d)
    ensures st.generation < 0x1_0000_0000_0000_0000
  {
    hide ListingOf;
    var records := StateRecords(st, l);
    assert records[0] == HeaderEntry(HeaderOf(st));
    assert TypedOf(records[0], d);
  }

  /** A failed or shortened record region makes a failed or shortened file. */
  lemma ParseLeftShort(region: seq<Byte>, g: nat, nextSequence: nat, o: Options, codec: Codec, crc: Checksum)
    requires |region| <= MAX_SNAPSHOT_BYTES - HEADER_BYTES && g < 0x1_0000_0000_0000_0000
    requires var r := ParseFrom(region, 0, Start(g), g, o.allowTailRecovery, codec, crc);
      r.Err? || r.value.recovered
    ensures ParseSnapshot(FileBytes(region, g, nextSequence, crc), o, codec, crc) ==
            ParseFrom(region, 0, Start(g), g, o.allowTailRecovery, codec, crc)
  {
    hide ParseFrom, FileHeader, FileBytes;
    TrailerFields(region, g, nextSequence, crc);
    HeaderFields(FileBytes(region, g, nextSequence, crc), |region|, g);
  }
}
