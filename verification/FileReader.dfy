/** `FileReaderAdapter`: reading the packets of an indexed recording file in order, with seeking. */
module FileReader {
  import opened Prelude
  import opened Bytes
  import opened FrameIndex
  import SpacePacket

  // The `ccsds` field is a function of the payload, in both formats.
  datatype ReplayPacket = ReplayPacket(
    sequenceNumber: nat, timestampNs: nat, fileOffset: nat, rawData: seq<byte>, payload: seq<byte>)
  {
    function CcsdsFields(): Option<SpacePacket.PrimaryHeader> { SpacePacket.ParseFrameHeader(payload) }
  }

  function FromBinaryFrame(rawData: seq<byte>, timestampNs: nat, fileOffset: nat, sequenceNumber: nat): ReplayPacket {
    var payload := if |rawData| > 14 then rawData[14..] else [];
    ReplayPacket(sequenceNumber, timestampNs, fileOffset, rawData, payload)
  }

  function FromCcsdsFrame(rawData: seq<byte>, timestampNs: nat, fileOffset: nat, sequenceNumber: nat): ReplayPacket {
    ReplayPacket(sequenceNumber, timestampNs, fileOffset, rawData, rawData)
  }

  // `read_exact` of n bytes at a position.
  function ReadExact(file: seq<byte>, position: nat, n: nat): Result<seq<byte>, ReplayError> {
    if position + n > |file| then Err(FileIo) else Ok(file[position..position + n])
  }

  // The bytes a frame occupies according to its length field.
  function DeclaredLength(file: seq<byte>, format: Format, o: nat): nat
    requires o + 6 <= |file|
  {
    if format.Binary? then 14 + U16(file[o + 4], file[o + 5]) else 7 + U16(file[o + 4], file[o + 5])
  }

  // What `read_next_packet` reads for an index entry.
  function ReadEntry(file: seq<byte>, format: Format, entry: IndexEntry, sequenceNumber: nat)
    : Result<ReplayPacket, ReplayError>
  {
    var o := entry.fileOffset;
    if format.Unsupported? then Err(Configuration)
    else if o + 6 > |file| then Err(FileIo)
    else if format.Binary? && !SyncAt(file, o) then Err(PacketCorruption)
    else if o + DeclaredLength(file, format, o) > |file| then Err(FileIo)
    else Ok(FromFrame(format, file[o..o + DeclaredLength(file, format, o)], entry, sequenceNumber))
  }

  function FromFrame(format: Format, frame: seq<byte>, entry: IndexEntry, sequenceNumber: nat): ReplayPacket {
    if format.Binary? then FromBinaryFrame(frame, entry.timestampNs, entry.fileOffset, sequenceNumber)
    else FromCcsdsFrame(frame, entry.timestampNs, entry.fileOffset, sequenceNumber)
  }

  // The packet of a frame that the index lists: its bytes, its recorded time and its number.
  function PacketOf(file: seq<byte>, format: Format, entry: IndexEntry, sequenceNumber: nat): ReplayPacket
    requires EntryFits(file, format, entry)
  {
    FromFrame(format, file[entry.fileOffset..EndOf(file, format, entry)], entry, sequenceNumber)
  }

  // An indexed frame is always read back whole.
  lemma IndexedEntryReads(file: seq<byte>, format: Format, entry: IndexEntry, sequenceNumber: nat)
    requires EntryFits(file, format, entry)
    ensures ReadEntry(file, format, entry, sequenceNumber) == Ok(PacketOf(file, format, entry, sequenceNumber))
  {}

  lemma BuiltEntryReads(file: seq<byte>, format: Format, index: TimestampIndex, i: nat)
    requires Built(file, format) == Ok(index) && i < |index.entries|
    ensures EntryFits(file, format, index.entries[i])
    ensures ReadEntry(file, format, index.entries[i], i + 1) == Ok(PacketOf(file, format, index.entries[i], i + 1))
  {
    ScanIsFraming(file, format, 0);
    assert index.entries[i] in index.entries;
    IndexedEntryReads(file, format, index.entries[i], i + 1);
  }

  // An indexed frame reads back right under its own format and under no other.
  lemma ReadsBackIff(file: seq<byte>, format: Format, other: Format, entry: IndexEntry, sequenceNumber: nat)
    requires EntryFits(file, format, entry)
    ensures ReadEntry(file, other, entry, sequenceNumber) == Ok(PacketOf(file, format, entry, sequenceNumber)) <==>
      other == format
  {
    IndexedEntryReads(file, format, entry, sequenceNumber);
    if other != format {
      ReadLength(file, format, entry, sequenceNumber);
      ReadLength(file, other, entry, sequenceNumber);
    }
  }

  // What is read is as long as the format declares; the formats differ by seven bytes.
  lemma ReadLength(file: seq<byte>, format: Format, entry: IndexEntry, sequenceNumber: nat)
    ensures
      var r := ReadEntry(file, format, entry, sequenceNumber);
      r.Ok? ==> entry.fileOffset + 6 <= |file| && |r.value.rawData| == DeclaredLength(file, format, entry.fileOffset)
  {}

  // The results of reading the entries in turn, after `already` earlier reads.
  function ReadAll(file: seq<byte>, format: Format, entries: seq<IndexEntry>, already: nat)
    : (all: seq<Result<ReplayPacket, ReplayError>>)
    ensures |all| == |entries|
    ensures forall i :: 0 <= i < |all| ==> all[i] == ReadEntry(file, format, entries[i], already + i + 1)
  {
    seq(|entries|, i requires 0 <= i < |entries| => ReadEntry(file, format, entries[i], already + i + 1))
  }

  // A recording is indexed as it was made, and every read returns the recorded frame, with its number,
  // time, place and payload.
  lemma RecordingReadsBack(records: seq<Record>, i: nat)
    requires (forall r :: r in records ==> Recordable(r)) && i < |records|
    ensures
      var file, entries := Recording(records), EntriesOf(records, 0);
      && Built(file, Binary) == Ok(IndexOf(entries)) && |entries| == |records|
      && entries[i].timestampNs == records[i].timestampNs && entries[i].fileOffset == |Recording(records[..i])|
      && ReadEntry(file, Binary, entries[i], i + 1) == Ok(ReplayPacket(
           i + 1, records[i].timestampNs, |Recording(records[..i])|, FrameOf(records[i]), records[i].payload))
  {
    hide FrameOf, ReadEntry;
    assert [] + Recording(records) == Recording(records);
    IndexRoundTrip([], records);
    EntriesReadBack([], records, i, i + 1);
  }

  lemma {:induction false} EntriesReadBack(before: seq<byte>, records: seq<Record>, i: nat, sequenceNumber: nat)
    requires (forall r :: r in records ==> Recordable(r)) && i < |records|
    ensures
      var file, entries := before + Recording(records), EntriesOf(records, |before|);
      var o := |before| + |Recording(records[..i])|;
      && |entries| == |records| && entries[i] == IndexEntry(o, records[i].timestampNs)
      && ReadEntry(file, Binary, entries[i], sequenceNumber) == Ok(ReplayPacket(
           sequenceNumber, records[i].timestampNs, o, FrameOf(records[i]), records[i].payload))
    decreases i
  {
    hide FrameOf, ReadEntry;
    var file := before + Recording(records);
    var frame := FrameOf(records[0]);
    Embedded(before, frame, Recording(records[1..]));
    FrameLength(records[0]);
    EntriesCount(records, |before|);
    if i == 0 {
      FrameReadsBack(file, |before|, records[0], sequenceNumber);
    } else {
      assert records[..i][1..] == records[1..][..i - 1];
      EntriesReadBack(before + frame, records[1..], i - 1, sequenceNumber);
    }
  }

  lemma {:induction false} EntriesCount(records: seq<Record>, o: nat)
    ensures |EntriesOf(records, o)| == |records|
  {
    if records != [] { EntriesCount(records[1..], o + 14 + |records[0].payload|); }
  }

  lemma PayloadOfFrame(r: Record)
    requires Recordable(r)
    ensures |FrameOf(r)| == 14 + |r.payload| && FrameOf(r)[14..] == r.payload
  {
    FrameLength(r);
  }

  lemma BinaryPacket(frame: seq<byte>, timestampNs: nat, o: nat, sequenceNumber: nat)
    requires |frame| >= 14
    ensures FromFrame(Binary, frame, IndexEntry(o, timestampNs), sequenceNumber) ==
      ReplayPacket(sequenceNumber, timestampNs, o, frame, frame[14..])
  {}

  lemma FrameReadsBack(file: seq<byte>, o: nat, r: Record, sequenceNumber: nat)
    requires Recordable(r) && o + 14 + |r.payload| <= |file| && file[o..o + 14 + |r.payload|] == FrameOf(r)
    ensures ReadEntry(file, Binary, IndexEntry(o, r.timestampNs), sequenceNumber) ==
      Ok(ReplayPacket(sequenceNumber, r.timestampNs, o, FrameOf(r), r.payload))
  {
    hide FrameOf, ReadEntry, FromFrame, ProbeBinary, TimestampAt;
    ProbeOfFrame(file, o, r);
    IndexedEntryReads(file, Binary, IndexEntry(o, r.timestampNs), sequenceNumber);
    PayloadOfFrame(r);
    BinaryPacket(FrameOf(r), r.timestampNs, o, sequenceNumber);
  }

  /* Seeking by timestamp */

  // The answer of the library's binary search: a match, or the place to insert.
  datatype Search = Found(index: nat) | Missing(index: nat)

  predicate NonDecreasing(times: seq<nat>) { forall i, j :: 0 <= i <= j < |times| ==> times[i] <= times[j] }

  // What the library promises of it: any of several matches, and nothing on where an unsorted
  // sequence misses.
  predicate MayAnswer(times: seq<nat>, target: nat, s: Search) {
    match s
    case Found(i) => i < |times| && times[i] == target
    case Missing(i) =>
      && i <= |times|
      && (NonDecreasing(times) ==>
            && (forall k :: 0 <= k < i ==> times[k] < target)
            && (forall k :: i <= k < |times| ==> target < times[k]))
  }

  // `find_nearest_index`; between two entries the later one wins a tie.
  function NearestIndex(times: seq<nat>, target: nat, s: Search): (r: nat)
    requires MayAnswer(times, target, s)
    ensures times != [] ==> r < |times|
  {
    if times == [] then 0
    else
      match s
      case Found(i) => i
      case Missing(i) =>
        if i == 0 then 0
        else if i == |times| then |times| - 1
        else if Minus(target, times[i - 1]) < Minus(times[i], target) then i - 1
        else i
  }

  // The entries at which a seek may arrive.
  ghost predicate MayFind(times: seq<nat>, target: nat, r: nat) {
    exists s :: MayAnswer(times, target, s) && r == NearestIndex(times, target, s)
  }

  // The number of leading entries before a timestamp.
  function InsertionPoint(times: seq<nat>, target: nat): (i: nat)
    ensures i <= |times|
    ensures forall k :: 0 <= k < i ==> times[k] < target
    ensures i < |times| ==> times[i] >= target
  {
    if times == [] || times[0] >= target then 0 else 1 + InsertionPoint(times[1..], target)
  }

  // Some answer is always allowed.
  function FirstAnswer(times: seq<nat>, target: nat): (s: Search)
    ensures MayAnswer(times, target, s)
  {
    var i := InsertionPoint(times, target);
    if i < |times| && times[i] == target then Found(i) else Missing(i)
  }

  function Distance(a: nat, b: nat): nat { if a < b then b - a else a - b }

  // Whatever the search answers, no entry is nearer, and of two equally near the later one is taken.
  lemma NearestIsNearest(times: seq<nat>, target: nat, r: nat)
    requires times != [] && NonDecreasing(times) && MayFind(times, target, r)
    ensures forall k :: 0 <= k < |times| ==>
      && Distance(times[r], target) <= Distance(times[k], target)
      && (Distance(times[r], target) == Distance(times[k], target) ==> times[k] <= times[r])
  {
    var s :| MayAnswer(times, target, s) && r == NearestIndex(times, target, s);
    if s.Missing? {
      forall k | 0 <= k < |times|
        ensures k < s.index ==> times[k] <= times[s.index - 1] < target
        ensures k >= s.index ==> target < times[s.index] <= times[k]
      {}
    }
  }

  lemma NearestOfPresent(times: seq<nat>, i: nat, r: nat)
    requires NonDecreasing(times) && i < |times| && MayFind(times, times[i], r)
    ensures r < |times| && times[r] == times[i]
  {
    NearestIsNearest(times, times[i], r);
    assert Distance(times[i], times[i]) == 0;
  }

  function Times(entries: seq<IndexEntry>): (times: seq<nat>)
    ensures |times| == |entries| && forall i :: 0 <= i < |times| ==> times[i] == entries[i].timestampNs
  {
    seq(|entries|, i requires 0 <= i < |entries| => entries[i].timestampNs)
  }

  datatype SourceMetadata = SourceMetadata(
    totalPackets: nat, durationNs: nat, startTimestampNs: nat, endTimestampNs: nat, fileSizeBytes: nat)

  function MetadataOf(index: TimestampIndex, size: nat): SourceMetadata {
    SourceMetadata(index.totalPackets, index.durationNs, index.startTimestampNs, index.endTimestampNs, size)
  }

  predicate HasParentStep(path: string) { exists i :: 0 <= i < |path| - 1 && path[i] == '.' && path[i + 1] == '.' }

  lemma ParentStepIff(path: string)
    ensures HasParentStep(path) <==> exists before, after :: path == before + ".." + after
  {
    if HasParentStep(path) {
      var i :| 0 <= i < |path| - 1 && path[i] == '.' && path[i + 1] == '.';
      assert path == path[..i] + ".." + path[i + 2..];
    }
    if before, after :| path == before + ".." + after {
      assert path[|before|] == '.' && path[|before| + 1] == '.';
    }
  }

  lemma HeaderBytes(file: seq<byte>, o: nat)
    requires o + 6 <= |file|
    ensures
      var header := file[o..o + 6];
      header[..4] == file[o..o + 4] && header[0] == file[o] && header[4] == file[o + 4] && header[5] == file[o + 5]
  {}

  lemma HeaderAndRest(file: seq<byte>, o: nat, n: nat)
    requires o + 6 + n <= |file|
    ensures file[o..o + 6] + file[o + 6..o + 6 + n] == file[o..o + 6 + n]
  {}

  // The reads of `read_next_packet`: a header, then as many bytes as it announces.
  method ReadFrame(file: seq<byte>, format: Format, entry: IndexEntry, sequenceNumber: nat)
    returns (r: Result<ReplayPacket, ReplayError>)
    ensures r == ReadEntry(file, format, entry, sequenceNumber)
  {
    hide SyncAt, FromBinaryFrame, FromCcsdsFrame;
    if format.Unsupported? {
      return Err(Configuration);
    }
    var o := entry.fileOffset;
    var header := ReadExact(file, o, 6);
    if header.Err? {
      return Err(header.error);
    }
    SyncBytes(file, o);
    HeaderBytes(file, o);
    if format.Binary? && header.value[0..4] != SYNC_WORD {
      return Err(PacketCorruption);
    }
    var lengthField: nat := U16(header.value[4], header.value[5]);
    var rest := ReadExact(file, o + 6, if format.Binary? then 8 + lengthField else lengthField + 1);
    if rest.Err? {
      return Err(rest.error);
    }
    var packetData := header.value + rest.value;
    HeaderAndRest(file, o, |rest.value|);
    if format.Binary? {
      return Ok(FromBinaryFrame(packetData, entry.timestampNs, o, sequenceNumber));
    } else {
      return Ok(FromCcsdsFrame(packetData, entry.timestampNs, o, sequenceNumber));
    }
  }

  class FileReaderAdapter {
    var fileType: Format
    var file: Option<seq<byte>>
    var index: Option<TimestampIndex>
    var currentIndex: nat
    var filePath: Option<string>
    ghost var indexedAs: Format  // the format the index was built with

    ghost predicate Valid()
      reads this
    {
      && (file.Some? <==> index.Some?) && (file.Some? <==> filePath.Some?)
      && (index.Some? ==> Built(file.value, indexedAs) == Ok(index.value))
    }

    // Open, and read with the format the index was built with.
    ghost predicate Ready()
      reads this
    {
      Valid() && index.Some? && fileType == indexedAs
    }

    constructor (format: Format)
      ensures Valid() && file.None? && currentIndex == 0 && fileType == format
    {
      fileType, indexedAs := format, format;
      file, index, currentIndex, filePath := None, None, 0, None;
    }

    // The next read returns the packet that was indexed.
    ghost predicate NextReadRight()
      requires Valid() && index.Some? && currentIndex < |index.value.entries|
      reads this
    {
      var entry := index.value.entries[currentIndex];
      EntryFits(file.value, indexedAs, entry) &&
      Upcoming() == Ok(Some(PacketOf(file.value, indexedAs, entry, currentIndex + 1)))
    }

    lemma NextReadRightIff()
      requires Valid() && index.Some? && currentIndex < |index.value.entries|
      ensures NextReadRight() <==> fileType == indexedAs
    {
      var entry := index.value.entries[currentIndex];
      BuiltEntryReads(file.value, indexedAs, index.value, currentIndex);
      ReadsBackIff(file.value, indexedAs, fileType, entry, currentIndex + 1);
    }

    // The file type is replaced before anything can fail; a failed open leaves the rest as it was.
    method Open(files: map<string, seq<byte>>, path: string, format: Format)
      returns (r: Result<SourceMetadata, ReplayError>)
      requires Valid()
      modifies this
      ensures Valid()
      ensures HasParentStep(path) ==>
        r == Err(Configuration) && fileType == old(fileType)
      ensures !HasParentStep(path) ==> fileType == format
      ensures r.Ok? <==> !HasParentStep(path) && path in files && Built(files[path], format).Ok?
      ensures r.Ok? ==>
        && Ready() && file == Some(files[path]) && currentIndex == 0 && filePath == Some(path)
        && index == Some(Built(files[path], format).value)
        && r.value == MetadataOf(index.value, |files[path]|)
      ensures r.Err? && !HasParentStep(path) ==>
        if path in files then Built(files[path], format) == Err(r.error) else r.error == FileIo
      ensures r.Err? ==>
        && file == old(file) && index == old(index) && currentIndex == old(currentIndex)
        && filePath == old(filePath) && indexedAs == old(indexedAs)
      ensures r.Err? && old(Ready()) && currentIndex < |index.value.entries| ==>
        (NextReadRight() <==> HasParentStep(path) || format == indexedAs)
    {
      if HasParentStep(path) {
        if index.Some? && currentIndex < |index.value.entries| {
          NextReadRightIff();
        }
        return Err(Configuration);
      }
      fileType := format;
      if index.Some? && currentIndex < |index.value.entries| {
        NextReadRightIff();
      }
      if path !in files {
        return Err(FileIo);
      }
      var built := Build(files[path], format);
      if built.Err? {
        return Err(built.error);
      }
      file, index, currentIndex, filePath := Some(files[path]), Some(built.value), 0, Some(path);
      indexedAs := format;
      return Ok(MetadataOf(built.value, |files[path]|));
    }

    // The outcome of the next read.
    ghost function Upcoming(): Result<Option<ReplayPacket>, ReplayError>
      requires Valid()
      reads this
    {
      if index.None? then Err(FileIo)
      else if currentIndex >= |index.value.entries| then Ok(None)
      else
        var packet := ReadEntry(file.value, fileType, index.value.entries[currentIndex], currentIndex + 1);
        if packet.Err? then Err(packet.error) else Ok(Some(packet.value))
    }

    method ReadNextPacket() returns (r: Result<Option<ReplayPacket>, ReplayError>)
      requires Valid()
      modifies this`currentIndex
      ensures Valid()
      ensures r == old(Upcoming())
      ensures currentIndex == old(currentIndex) + if r.Ok? && r.value.Some? then 1 else 0
    {
      if file.None? || index.None? {
        return Err(FileIo);
      }
      if currentIndex >= |index.value.entries| {
        return Ok(None);
      }
      var packet := ReadFrame(file.value, fileType, index.value.entries[currentIndex], currentIndex + 1);
      if packet.Err? {
        return Err(packet.error);
      }
      currentIndex := currentIndex + 1;
      return Ok(Some(packet.value));
    }

    // A ready reader never fails: it returns the packet of the current entry, or the end.
    lemma ReadyUpcoming()
      requires Ready()
      ensures currentIndex >= |index.value.entries| ==> Upcoming() == Ok(None)
      ensures currentIndex < |index.value.entries| ==>
        var entry := index.value.entries[currentIndex];
        EntryFits(file.value, fileType, entry) &&
        Upcoming() == Ok(Some(PacketOf(file.value, fileType, entry, currentIndex + 1)))
    {
      hide ReadEntry, PacketOf, Built;
      if currentIndex < |index.value.entries| {
        BuiltEntryReads(file.value, fileType, index.value, currentIndex);
      }
    }

    method Seek(timestampNs: nat, search: Search) returns (r: Result<Unit, ReplayError>)
      requires Valid()
      requires index.Some? ==> MayAnswer(Times(index.value.entries), timestampNs, search)
      modifies this`currentIndex
      ensures Valid()
      ensures index.None? ==> r == Err(FileIo) && currentIndex == old(currentIndex)
      ensures index.Some? ==>
        r == Ok(Unit) && currentIndex == NearestIndex(Times(index.value.entries), timestampNs, search)
    {
      if index.None? {
        return Err(FileIo);
      }
      currentIndex := NearestIndex(Times(index.value.entries), timestampNs, search);
      return Ok(Unit);
    }

    method Close()
      requires Valid()
      modifies this
      ensures Valid() && file.None? && currentIndex == 0 && fileType == old(fileType)
    {
      file, index, currentIndex, filePath := None, None, 0, None;
    }
  }

  // Reading a whole file through the adapter gives one packet per index entry.
  method ReadToEnd(reader: FileReaderAdapter) returns (packets: seq<ReplayPacket>)
    requires reader.Ready() && reader.currentIndex == 0
    modifies reader`currentIndex
    ensures reader.Ready()
    ensures |packets| == |reader.index.value.entries|
    ensures forall i :: 0 <= i < |packets| ==>
      && EntryFits(reader.file.value, reader.fileType, reader.index.value.entries[i])
      && packets[i] == PacketOf(reader.file.value, reader.fileType, reader.index.value.entries[i], i + 1)
  {
    hide PacketOf, Built;
    packets := [];
    ghost var entries := reader.index.value.entries;
    var done := false;
    while !done
      invariant reader.Ready() && reader.index.value.entries == entries
      invariant reader.currentIndex == |packets| <= |entries|
      invariant done ==> |packets| == |entries|
      invariant forall i :: 0 <= i < |packets| ==>
        && EntryFits(reader.file.value, reader.fileType, entries[i])
        && packets[i] == PacketOf(reader.file.value, reader.fileType, entries[i], i + 1)
      decreases |entries| - |packets|, !done
    {
      reader.ReadyUpcoming();
      var r := reader.ReadNextPacket();
      if r.value.Some? {
        packets := packets + [r.value.value];
      } else {
        done := true;
      }
    }
  }

  lemma FirstFrameMisread(records: seq<Record>)
    requires records != [] && forall r :: r in records ==> Recordable(r)
    ensures Built(Recording(records), Binary).Ok?
    ensures
      var file, entries := Recording(records), Built(Recording(records), Binary).value.entries;
      && entries != [] && ReadEntry(file, Ccsds, entries[0], 1).Ok?
      && |ReadEntry(file, Ccsds, entries[0], 1).value.rawData| == 7 + |records[0].payload|
  {
    RecordingReadsBack(records, 0);
    var file := Recording(records);
    var frame := FrameOf(records[0]);
    assert file[4] == frame[4] && file[5] == frame[5];
    ReadLength(file, Ccsds, EntriesOf(records, 0)[0], 1);
  }

  lemma PlainNames()
    ensures !HasParentStep("recording.bin") && !HasParentStep("missing.bin") && "recording.bin" != "missing.bin"
  {
    assert "recording.bin"[0] != "missing.bin"[0];
  }

  // A run that shows the effect of a failed open: a recording is open, a file that is not there is
  // opened as CCSDS, and the next read is seven bytes short of the recorded frame.
  method ReadAfterFailedOpen(records: seq<Record>) returns (read: Result<Option<ReplayPacket>, ReplayError>)
    requires records != [] && forall r :: r in records ==> Recordable(r)
    ensures read.Ok? && read.value.Some? && |read.value.value.rawData| == 7 + |records[0].payload|
  {
    hide Built, Recording, ReadEntry, HasParentStep;
    FirstFrameMisread(records);
    PlainNames();
    var files := map["recording.bin" := Recording(records)];
    var reader := new FileReaderAdapter(Binary);
    var metadata := reader.Open(files, "recording.bin", Binary);
    var failure := reader.Open(files, "missing.bin", Ccsds);
    read := reader.ReadNextPacket();
  }
}
