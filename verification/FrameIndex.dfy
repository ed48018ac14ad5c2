/** Framing of recording files: the index of `TimestampIndex::build`, for files of sync-word frames
    and for files of CCSDS packets. A file is the sequence of its bytes. */
module FrameIndex {
  import opened Prelude
  import opened Bytes

  datatype Format = Binary | Ccsds | Unsupported

  datatype ReplayError = Configuration | FileIo | PacketCorruption | TimestampCorruption

  datatype IndexEntry = IndexEntry(fileOffset: nat, timestampNs: nat)

  const SYNC_WORD: seq<byte> := [0x1A, 0x2B, 0x3C, 0x4D]

  // What a scan meets at an offset.
  datatype Probe =
    | EndOfFile
    | NoFrame
    | Frame(length: nat)
    | Broken(error: ReplayError)

  predicate SyncAt(file: seq<byte>, o: nat)
    requires o + 4 <= |file|
  {
    file[o] == SYNC_WORD[0] && file[o + 1] == SYNC_WORD[1] && file[o + 2] == SYNC_WORD[2] && file[o + 3] == SYNC_WORD[3]
  }

  lemma SyncBytes(file: seq<byte>, o: nat)
    requires o + 4 <= |file|
    ensures SyncAt(file, o) <==> file[o..o + 4] == SYNC_WORD
  {
    var head := file[o..o + 4];
    assert head[0] == file[o] && head[1] == file[o + 1] && head[2] == file[o + 2] && head[3] == file[o + 3];
  }

  // The timestamp behind the header of a frame.
  function TimestampAt(file: seq<byte>, o: nat): nat {
    if o + 14 <= |file| then BigEndian(file[o + 6..o + 14]) else 0
  }

  function ProbeBinary(file: seq<byte>, o: nat): Probe {
    if o + 14 > |file| then EndOfFile
    else if !SyncAt(file, o) then NoFrame
    else
      var length := 14 + U16(file[o + 4], file[o + 5]);
      if o + length > |file| then Broken(PacketCorruption)
      else Frame(length)
  }

  function ProbeCcsds(file: seq<byte>, o: nat): Probe {
    if o + 6 > |file| then EndOfFile
    else
      var length := U16(file[o + 4], file[o + 5]) + 7;
      if o + length > |file| then Broken(PacketCorruption)
      else if file[o] / 8 % 2 == 0 then Broken(PacketCorruption)
      else if o + 14 > |file| then Broken(FileIo)
      else Frame(length)
  }

  function ProbeAt(file: seq<byte>, format: Format, o: nat): (p: Probe)
    ensures p.Frame? ==> p.length > 0 && o + p.length <= |file| && o + 14 <= |file|
    ensures p.NoFrame? ==> o < |file|
  {
    match format
    case Binary => ProbeBinary(file, o)
    case Ccsds => ProbeCcsds(file, o)
    case Unsupported => Broken(Configuration)
  }

  // The scan from an offset on: frames are jumped over, other bytes are passed one by one.
  function Scan(file: seq<byte>, format: Format, o: nat): Result<seq<IndexEntry>, ReplayError>
    decreases |file| - o
  {
    match ProbeAt(file, format, o)
    case EndOfFile => Ok([])
    case NoFrame => Scan(file, format, o + 1)
    case Broken(error) => Err(error)
    case Frame(length) =>
      var rest := Scan(file, format, o + length);
      if rest.Err? then rest else Ok([IndexEntry(o, TimestampAt(file, o))] + rest.value)
  }

  datatype TimestampIndex = TimestampIndex(
    entries: seq<IndexEntry>, totalPackets: nat, startTimestampNs: nat, endTimestampNs: nat, durationNs: nat)

  function IndexOf(entries: seq<IndexEntry>): TimestampIndex
    requires entries != []
  {
    var start, end := entries[0].timestampNs, entries[|entries| - 1].timestampNs;
    TimestampIndex(entries, |entries|, start, end, if end >= start then end - start else 0)
  }

  function Built(file: seq<byte>, format: Format): Result<TimestampIndex, ReplayError> {
    var scanned := Scan(file, format, 0);
    if scanned.Err? then Err(scanned.error)
    else if scanned.value == [] then Err(PacketCorruption)
    else Ok(IndexOf(scanned.value))
  }

  function Prepend(entries: seq<IndexEntry>, rest: Result<seq<IndexEntry>, ReplayError>)
    : Result<seq<IndexEntry>, ReplayError>
  {
    if rest.Err? then rest else Ok(entries + rest.value)
  }

  lemma PrependNothing(r: Result<seq<IndexEntry>, ReplayError>)
    ensures Prepend([], r) == r
  {
    if r.Ok? { assert [] + r.value == r.value; }
  }

  // `TimestampIndex::build` on the bytes of an opened file.
  method Build(file: seq<byte>, format: Format) returns (r: Result<TimestampIndex, ReplayError>)
    ensures r == Built(file, format)
  {
    var entries: seq<IndexEntry> := [];
    var offset := 0;
    PrependNothing(Scan(file, format, 0));
    match format {
      case Ccsds =>
        while offset + 6 <= |file|
          invariant offset <= |file| && Scan(file, Ccsds, 0) == Prepend(entries, Scan(file, Ccsds, offset))
        {
          var packetLen := U16(file[offset + 4], file[offset + 5]) + 7;
          if offset + packetLen > |file| {
            return Err(PacketCorruption);
          }
          if file[offset] / 8 % 2 == 0 {
            return Err(PacketCorruption);
          }
          if offset + 14 > |file| {
            return Err(FileIo);
          }
          entries, offset := NextEntry(file, Ccsds, entries, offset, packetLen);
        }
      case Binary =>
        while offset + 14 <= |file|
          invariant offset <= |file| && Scan(file, Binary, 0) == Prepend(entries, Scan(file, Binary, offset))
        {
          SyncBytes(file, offset);
          if file[offset..offset + 4] != SYNC_WORD {
            offset := offset + 1;
            continue;
          }
          var packetLen := 4 + 2 + 8 + U16(file[offset + 4], file[offset + 5]);
          if offset + packetLen > |file| {
            return Err(PacketCorruption);
          }
          entries, offset := NextEntry(file, Binary, entries, offset, packetLen);
        }
      case Unsupported =>
        return Err(Configuration);
    }
    assert entries + [] == entries;
    if entries == [] {
      return Err(PacketCorruption);
    }
    return Ok(IndexOf(entries));
  }

  // Reading the timestamp and recording the frame, common to both formats.
  method NextEntry(file: seq<byte>, format: Format, before: seq<IndexEntry>, o: nat, packetLen: nat)
    returns (entries: seq<IndexEntry>, offset: nat)
    requires ProbeAt(file, format, o).Frame? && ProbeAt(file, format, o).length == packetLen
    ensures offset == o + packetLen <= |file|
    ensures Prepend(before, Scan(file, format, o)) == Prepend(entries, Scan(file, format, offset))
  {
    entries := before + [IndexEntry(o, BigEndian(file[o + 6..o + 14]))];
    offset := o + packetLen;
    var rest := Scan(file, format, offset);
    if rest.Ok? {
      assert before + ([IndexEntry(o, BigEndian(file[o + 6..o + 14]))] + rest.value) == entries + rest.value;
    }
  }

  /* What an index is */

  predicate EntryFits(file: seq<byte>, format: Format, entry: IndexEntry) {
    var p := ProbeAt(file, format, entry.fileOffset);
    p.Frame? && TimestampAt(file, entry.fileOffset) == entry.timestampNs
  }

  function EndOf(file: seq<byte>, format: Format, entry: IndexEntry): nat
    requires EntryFits(file, format, entry)
  {
    entry.fileOffset + ProbeAt(file, format, entry.fileOffset).length
  }

  predicate Inside(file: seq<byte>, format: Format, entry: IndexEntry, o: nat)
    requires EntryFits(file, format, entry)
  {
    entry.fileOffset <= o < EndOf(file, format, entry)
  }

  // No frame, whole or broken, starts here.
  predicate Quiet(file: seq<byte>, format: Format, o: nat) {
    var p := ProbeAt(file, format, o);
    p.NoFrame? || p.EndOfFile?
  }

  ghost predicate EntriesFit(file: seq<byte>, format: Format, entries: seq<IndexEntry>) {
    forall e :: e in entries ==> EntryFits(file, format, e)
  }

  // Some frame of the index extends over this offset.
  ghost predicate Covered(file: seq<byte>, format: Format, entries: seq<IndexEntry>, o: nat)
    requires EntriesFit(file, format, entries)
  {
    exists e :: e in entries && Inside(file, format, e, o)
  }

  // The entries are frames of the file, disjoint and in file order, and no frame, whole or broken,
  // starts at any other place outside them.
  ghost predicate IsFraming(file: seq<byte>, format: Format, entries: seq<IndexEntry>, from: nat) {
    && EntriesFit(file, format, entries)
    && (forall e :: e in entries ==> from <= e.fileOffset)
    && (forall i, j :: 0 <= i < j < |entries| ==> EndOf(file, format, entries[i]) <= entries[j].fileOffset)
    && (forall o :: from <= o <= |file| && !Covered(file, format, entries, o) ==> Quiet(file, format, o))
  }

  lemma CoveredCons(file: seq<byte>, format: Format, entry: IndexEntry, rest: seq<IndexEntry>, o: nat)
    requires EntryFits(file, format, entry) && EntriesFit(file, format, rest)
    ensures EntriesFit(file, format, [entry] + rest)
    ensures Covered(file, format, [entry] + rest, o) <==>
      Inside(file, format, entry, o) || Covered(file, format, rest, o)
  {
    assert forall e :: e in [entry] + rest <==> e == entry || e in rest;
  }

  lemma FramingCons(file: seq<byte>, format: Format, entry: IndexEntry, rest: seq<IndexEntry>)
    requires EntryFits(file, format, entry) && IsFraming(file, format, rest, EndOf(file, format, entry))
    ensures IsFraming(file, format, [entry] + rest, entry.fileOffset)
  {
    hide Quiet;
    var entries := [entry] + rest;
    forall i, j | 0 <= i < j < |entries|
      ensures EndOf(file, format, entries[i]) <= entries[j].fileOffset
    {
      assert entries[j] == rest[j - 1] && entries[j] in rest;
      if i > 0 { assert entries[i] == rest[i - 1]; }
    }
    forall o | entry.fileOffset <= o <= |file| && !Covered(file, format, entries, o)
      ensures Quiet(file, format, o)
    {
      CoveredCons(file, format, entry, rest, o);
    }
  }

  lemma FramingUncons(file: seq<byte>, format: Format, entries: seq<IndexEntry>, from: nat)
    requires IsFraming(file, format, entries, from) && entries != []
    ensures IsFraming(file, format, entries[1..], EndOf(file, format, entries[0]))
  {
    var first, rest := entries[0], entries[1..];
    assert first in entries;
    forall e | e in rest
      ensures EndOf(file, format, first) <= e.fileOffset
    {
      var k :| 0 <= k < |rest| && rest[k] == e;
      assert entries[k + 1] == e;
    }
    forall o | EndOf(file, format, first) <= o <= |file| && !Covered(file, format, rest, o)
      ensures Quiet(file, format, o)
    {
      assert entries == [first] + rest;
      CoveredCons(file, format, first, rest, o);
    }
  }

  lemma {:induction false} ScanIsFraming(file: seq<byte>, format: Format, from: nat)
    requires from <= |file| && Scan(file, format, from).Ok?
    ensures IsFraming(file, format, Scan(file, format, from).value, from)
    decreases |file| - from
  {
    match ProbeAt(file, format, from)
    case EndOfFile => QuietToTheEnd(file, format, from);
    case NoFrame => ScanIsFraming(file, format, from + 1);
    case Broken(_) =>
    case Frame(length) =>
      ScanIsFraming(file, format, from + length);
      FramingCons(file, format, IndexEntry(from, TimestampAt(file, from)), Scan(file, format, from + length).value);
  }

  lemma QuietToTheEnd(file: seq<byte>, format: Format, from: nat)
    requires ProbeAt(file, format, from).EndOfFile?
    ensures forall o :: from <= o <= |file| ==> Quiet(file, format, o)
  {}

  // The first frame starts at the first offset that is not quiet.
  lemma FirstFrame(file: seq<byte>, format: Format, entries: seq<IndexEntry>, from: nat)
    requires from <= |file| && IsFraming(file, format, entries, from)
    ensures ProbeAt(file, format, from).EndOfFile? ==> entries == []
    ensures Quiet(file, format, from) ==> forall e :: e in entries ==> from + 1 <= e.fileOffset
    ensures !Quiet(file, format, from) ==> entries != [] && entries[0].fileOffset == from
  {
    if !Quiet(file, format, from) {
      var e :| e in entries && Inside(file, format, e, from);
      var k :| 0 <= k < |entries| && entries[k] == e;
      assert entries[0] in entries && EndOf(file, format, entries[0]) > from;
    }
    if ProbeAt(file, format, from).EndOfFile? {
      QuietToTheEnd(file, format, from);
      assert entries != [] ==> entries[0] in entries && EntryFits(file, format, entries[0]);
      assert entries != [] ==> Quiet(file, format, entries[0].fileOffset);
    }
  }

  // A file has at most one framing, and the scan finds it.
  lemma {:induction false} FramingIsScan(file: seq<byte>, format: Format, entries: seq<IndexEntry>, from: nat)
    requires from <= |file| && IsFraming(file, format, entries, from)
    ensures Scan(file, format, from) == Ok(entries)
    decreases |file| - from
  {
    FirstFrame(file, format, entries, from);
    if ProbeAt(file, format, from).NoFrame? {
      FramingIsScan(file, format, entries, from + 1);
    } else if !ProbeAt(file, format, from).EndOfFile? {
      assert entries[0] in entries;
      FramingUncons(file, format, entries, from);
      FramingIsScan(file, format, entries[1..], EndOf(file, format, entries[0]));
      assert entries == [entries[0]] + entries[1..];
    }
  }

  lemma BuildsIffFramed(file: seq<byte>, format: Format, entries: seq<IndexEntry>)
    ensures Scan(file, format, 0) == Ok(entries) <==> IsFraming(file, format, entries, 0)
  {
    if Scan(file, format, 0).Ok? {
      ScanIsFraming(file, format, 0);
    }
    if IsFraming(file, format, entries, 0) {
      FramingIsScan(file, format, entries, 0);
    }
  }

  /* Recordings */

  datatype Record = Record(timestampNs: nat, payload: seq<byte>)

  predicate Recordable(r: Record) { r.timestampNs < Pow256(8) && |r.payload| < 0x1_0000 }

  function FrameOf(r: Record): seq<byte>
    requires Recordable(r)
  {
    SYNC_WORD + [|r.payload| / 256, |r.payload| % 256] + BigEndianBytes(r.timestampNs, 8) + r.payload
  }

  function Recording(records: seq<Record>): seq<byte>
    requires forall r :: r in records ==> Recordable(r)
  {
    if records == [] then [] else FrameOf(records[0]) + Recording(records[1..])
  }

  function EntriesOf(records: seq<Record>, o: nat): seq<IndexEntry> {
    if records == [] then []
    else [IndexEntry(o, records[0].timestampNs)] + EntriesOf(records[1..], o + 14 + |records[0].payload|)
  }

  lemma ProbeOfFrame(file: seq<byte>, o: nat, r: Record)
    requires Recordable(r) && o + 14 + |r.payload| <= |file|
    requires file[o..o + 14 + |r.payload|] == FrameOf(r)
    ensures ProbeBinary(file, o) == Frame(14 + |r.payload|) && TimestampAt(file, o) == r.timestampNs
  {
    var frame, stamp := FrameOf(r), BigEndianBytes(r.timestampNs, 8);
    BigEndianRoundTrip(r.timestampNs, 8);
    forall i | 0 <= i < |frame|
      ensures file[o + i] == frame[i]
    {
      assert file[o..o + |frame|][i] == frame[i];
    }
    assert frame[..4] == SYNC_WORD && frame[6..14] == stamp;
    assert file[o..o + 4] == frame[..4];
    SyncBytes(file, o);
    assert file[o + 6..o + 14] == frame[6..14];
  }

  // Indexing a recording gives back its timestamps and frame positions.
  lemma {:induction false} IndexRoundTrip(before: seq<byte>, records: seq<Record>)
    requires forall r :: r in records ==> Recordable(r)
    ensures Scan(before + Recording(records), Binary, |before|) == Ok(EntriesOf(records, |before|))
    decreases records
  {
    hide FrameOf, Scan;
    if records == [] {
      ScanAtEnd(before + Recording(records));
    } else {
      var r, rest := records[0], records[1..];
      var frame := FrameOf(r);
      FrameLength(r);
      Embedded(before, frame, Recording(rest));
      ScanAtFrame(before + Recording(records), |before|, r);
      IndexRoundTrip(before + frame, rest);
    }
  }

  lemma ScanAtEnd(file: seq<byte>)
    ensures Scan(file, Binary, |file|) == Ok([])
  {}

  lemma ScanAtFrame(file: seq<byte>, o: nat, r: Record)
    requires Recordable(r) && o + 14 + |r.payload| <= |file|
    requires file[o..o + 14 + |r.payload|] == FrameOf(r)
    ensures
      var rest := Scan(file, Binary, o + 14 + |r.payload|);
      Scan(file, Binary, o) == if rest.Err? then rest else Ok([IndexEntry(o, r.timestampNs)] + rest.value)
  {
    hide FrameOf, ProbeBinary, TimestampAt;
    ProbeOfFrame(file, o, r);
  }

  lemma FrameLength(r: Record)
    requires Recordable(r)
    ensures |FrameOf(r)| == 14 + |r.payload|
  {}

  lemma Embedded(before: seq<byte>, frame: seq<byte>, rest: seq<byte>)
    ensures before + (frame + rest) == (before + frame) + rest
    ensures (before + (frame + rest))[|before|..|before| + |frame|] == frame
  {}
}
