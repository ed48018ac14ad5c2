/** `PacketIterator`: the streaming reader of recording files, and its agreement with the index. */
module PacketIterator {
  import opened Prelude
  import opened Bytes
  import opened FrameIndex
  import opened FileReader

  type Item = Result<ReplayPacket, ReplayError>

  // The state of the iterator: where the buffered reader stands, and what the iterator keeps count of.
  datatype Cursor = Cursor(position: nat, currentOffset: nat, sequenceCounter: nat, packetsRead: nat, finished: bool)

  const START := Cursor(0, 0, 0, 0, false)

  datatype Reading = Reading(cursor: Cursor, item: Option<Item>)

  function Advance(c: Cursor, frameLength: nat): Cursor {
    Cursor(
      c.position + frameLength, c.currentOffset + frameLength, c.sequenceCounter + 1, c.packetsRead + 1, c.finished)
  }

  function Fail(c: Cursor, error: ReplayError): Reading { Reading(c, Some(Err(error))) }

  // `read_next_binary`.
  function BinaryReading(file: seq<byte>, c: Cursor): Reading {
    if c.currentOffset + 14 > |file| then Reading(c, None)
    else
      var header := ReadExact(file, c.position, 6);
      if header.Err? then Reading(c, None)
      else if header.value[..4] != SYNC_WORD then
        Fail(c.(currentOffset := c.currentOffset + 1, position := c.currentOffset + 1), PacketCorruption)
      else
        var payloadLen := U16(header.value[4], header.value[5]);
        var stamp := ReadExact(file, c.position + 6, 8);
        if stamp.Err? then Fail(c.(position := c.position + 6), FileIo)
        else
          var payload := ReadExact(file, c.position + 14, payloadLen);
          if payload.Err? then Fail(c.(position := c.position + 14), FileIo)
          else
            var next := Advance(c, 14 + payloadLen);
            Reading(next, Some(Ok(FromBinaryFrame(
              header.value + stamp.value + payload.value, BigEndian(stamp.value),
              c.currentOffset, next.sequenceCounter))))
  }

  // `read_next_ccsds`; without a secondary header only the reader has moved on.
  function CcsdsReading(file: seq<byte>, c: Cursor): Reading {
    if c.currentOffset + 6 > |file| then Reading(c, None)
    else
      var header := ReadExact(file, c.position, 6);
      if header.Err? then Reading(c, None)
      else if header.value[0] / 8 % 2 == 0 then Fail(c.(position := c.position + 6), PacketCorruption)
      else
        var fieldLen := U16(header.value[4], header.value[5]) + 1;
        var field := ReadExact(file, c.position + 6, fieldLen);
        if field.Err? then Fail(c.(position := c.position + 6), FileIo)
        else if fieldLen < 8 then Fail(c.(position := c.position + 6 + fieldLen), TimestampCorruption)
        else
          var next := Advance(c, 6 + fieldLen);
          Reading(next, Some(Ok(FromCcsdsFrame(
            header.value + field.value, BigEndian(field.value[..8]), c.currentOffset, next.sequenceCounter))))
  }

  // `next`: the end and every error but corruption finish the iteration.
  function NextReading(file: seq<byte>, format: Format, c: Cursor): Reading
    requires !format.Unsupported?
  {
    if c.finished then Reading(c, None)
    else
      var reading := if format.Binary? then BinaryReading(file, c) else CcsdsReading(file, c);
      match reading.item
      case None => Reading(reading.cursor.(finished := true), None)
      case Some(Ok(_)) => reading
      case Some(Err(error)) =>
        if error.PacketCorruption? then reading
        else Reading(reading.cursor.(finished := true), reading.item)
  }

  class PacketIterator {
    const file: seq<byte>
    const format: Format
    var position: nat
    var currentOffset: nat
    var sequenceCounter: nat
    var packetsRead: nat
    var finished: bool

    ghost function State(): Cursor
      reads this
    {
      Cursor(position, currentOffset, sequenceCounter, packetsRead, finished)
    }

    constructor (file: seq<byte>, format: Format)
      requires !format.Unsupported?
      ensures this.file == file && this.format == format && State() == START
    {
      this.file, this.format := file, format;
      position, currentOffset, sequenceCounter, packetsRead, finished := 0, 0, 0, 0, false;
    }

    method SeekToOffset(offset: nat)
      modifies this
      ensures State() == old(State()).(position := offset, currentOffset := offset, finished := false)
    {
      position, currentOffset, finished := offset, offset, false;
    }

    // `read_exact`: the reader moves on only when all n bytes are there.
    method Read(n: nat) returns (r: Result<seq<byte>, ReplayError>)
      modifies this`position
      ensures r == ReadExact(file, old(position), n)
      ensures position == if r.Ok? then old(position) + n else old(position)
    {
      r := ReadExact(file, position, n);
      if r.Ok? {
        position := position + n;
      }
    }

    method Count(frameLength: nat)
      modifies this
      ensures State() == old(State()).(
        currentOffset := old(currentOffset) + frameLength,
        sequenceCounter := old(sequenceCounter) + 1, packetsRead := old(packetsRead) + 1)
    {
      currentOffset := currentOffset + frameLength;
      sequenceCounter := sequenceCounter + 1;
      packetsRead := packetsRead + 1;
    }

    method ReadNextBinary() returns (item: Option<Item>)
      modifies this
      ensures Reading(State(), item) == BinaryReading(file, old(State()))
    {
      if currentOffset + 14 > |file| {
        return None;
      }
      var header := Read(6);
      if header.Err? {
        return None;
      }
      if header.value[..4] != SYNC_WORD {
        currentOffset := currentOffset + 1;
        position := currentOffset;
        return Some(Err(PacketCorruption));
      }
      var payloadLen: nat := U16(header.value[4], header.value[5]);
      var stamp := Read(8);
      if stamp.Err? {
        return Some(Err(FileIo));
      }
      var payload := Read(payloadLen);
      if payload.Err? {
        return Some(Err(FileIo));
      }
      var fileOffset := currentOffset;
      Count(14 + payloadLen);
      return Some(Ok(FromBinaryFrame(
        header.value + stamp.value + payload.value, BigEndian(stamp.value), fileOffset, sequenceCounter)));
    }

    method ReadNextCcsds() returns (item: Option<Item>)
      modifies this
      ensures Reading(State(), item) == CcsdsReading(file, old(State()))
    {
      if currentOffset + 6 > |file| {
        return None;
      }
      var header := Read(6);
      if header.Err? {
        return None;
      }
      var fieldLen: nat := U16(header.value[4], header.value[5]) + 1;
      if header.value[0] / 8 % 2 == 0 {
        return Some(Err(PacketCorruption));
      }
      var field := Read(fieldLen);
      if field.Err? {
        return Some(Err(FileIo));
      }
      if fieldLen < 8 {
        return Some(Err(TimestampCorruption));
      }
      var fileOffset := currentOffset;
      Count(6 + fieldLen);
      return Some(Ok(FromCcsdsFrame(
        header.value + field.value, BigEndian(field.value[..8]), fileOffset, sequenceCounter)));
    }

    method Next() returns (item: Option<Item>)
      requires !format.Unsupported?
      modifies this
      ensures Reading(State(), item) == NextReading(file, format, old(State()))
    {
      if finished {
        return None;
      }
      if format.Binary? {
        item := ReadNextBinary();
      } else {
        item := ReadNextCcsds();
      }
      match item {
        case None =>
          finished := true;
        case Some(Ok(_)) =>
        case Some(Err(error)) =>
          if !error.PacketCorruption? {
            finished := true;
          }
      }
    }
  }

  /* Whole iterations */

  // The reader of sync-word frames stands where the iterator believes it does.
  predicate Aligned(file: seq<byte>, format: Format, c: Cursor) {
    c.position <= |file| && (format.Binary? && !c.finished ==> c.position == c.currentOffset)
  }

  lemma NextProgresses(file: seq<byte>, format: Format, c: Cursor)
    requires !format.Unsupported? && Aligned(file, format, c)
    ensures
      var reading := NextReading(file, format, c);
      reading.item.Some? ==>
        && Aligned(file, format, reading.cursor)
        && !c.finished && (reading.cursor.finished || reading.cursor.position > c.position)
  {}

  // Every frame has room for a timestamp after its header.
  ghost predicate StampsFit(file: seq<byte>, format: Format, o: nat)
    decreases |file| - o
  {
    match ProbeAt(file, format, o)
    case Frame(length) => length >= 14 && StampsFit(file, format, o + length)
    case NoFrame => StampsFit(file, format, o + 1)
    case _ => true
  }

  // Two CCSDS packets, the first with one byte of data.
  const SHORT_THEN_LONG: seq<byte> := [8, 0, 0, 0, 0, 0, 1, 8, 0, 0, 0, 0, 7, 1, 2, 3, 4, 5, 6, 7, 8]

  // Such a file is indexed, but its first packet has no room for a timestamp.
  lemma ShortFrameIsIndexed()
    ensures Built(SHORT_THEN_LONG, Ccsds).Ok? && |Built(SHORT_THEN_LONG, Ccsds).value.entries| == 2
    ensures !StampsFit(SHORT_THEN_LONG, Ccsds, 0)
  {
    hide ProbeAt, TwoHeaders, StampsFit, Built;
    HeadersOfBoth();
    TwoProbes(SHORT_THEN_LONG);
    TwoFrames(SHORT_THEN_LONG);
  }

  predicate TwoHeaders(file: seq<byte>) {
    && |file| == 21 && file[0] == 8 && file[4] == 0 && file[5] == 0
    && file[7] == 8 && file[11] == 0 && file[12] == 7
  }

  lemma HeadersOfBoth()
    ensures TwoHeaders(SHORT_THEN_LONG)
  {}

  lemma TwoProbes(file: seq<byte>)
    requires TwoHeaders(file)
    ensures ProbeAt(file, Ccsds, 0) == Frame(7) && ProbeAt(file, Ccsds, 7) == Frame(14)
    ensures ProbeAt(file, Ccsds, 21) == EndOfFile
  {
    hide ProbeAt;
    ProbeOfPacket(file, 0, 7);
    ProbeOfPacket(file, 7, 14);
    ProbeOfEnd(file);
  }

  lemma ProbeOfPacket(file: seq<byte>, o: nat, length: nat)
    requires o + length <= |file| && o + 14 <= |file| && file[o] / 8 % 2 == 1
    requires U16(file[o + 4], file[o + 5]) + 7 == length
    ensures ProbeAt(file, Ccsds, o) == Frame(length)
  {}

  lemma ProbeOfEnd(file: seq<byte>)
    ensures ProbeAt(file, Ccsds, |file|) == EndOfFile
  {}

  lemma TwoFrames(file: seq<byte>)
    requires |file| == 21 && ProbeAt(file, Ccsds, 0) == Frame(7) && ProbeAt(file, Ccsds, 7) == Frame(14)
    requires ProbeAt(file, Ccsds, 21) == EndOfFile
    ensures Built(file, Ccsds).Ok? && |Built(file, Ccsds).value.entries| == 2
    ensures !StampsFit(file, Ccsds, 0)
  {
    hide ProbeAt, TimestampAt;
    assert |Scan(file, Ccsds, 21).value| == 0;
    assert |Scan(file, Ccsds, 7).value| == 1;
  }

  lemma BinaryMeetsProbe(file: seq<byte>, c: Cursor)
    requires c.position == c.currentOffset
    ensures
      var reading := BinaryReading(file, c);
      match ProbeBinary(file, c.position)
      case EndOfFile => reading.item.None?
      case NoFrame => reading == Fail(c.(position := c.position + 1, currentOffset := c.position + 1), PacketCorruption)
      case Broken(_) => true
      case Frame(length) =>
        var frame := file[c.position..c.position + length];
        reading == Reading(
          Advance(c, length),
          Some(Ok(FromBinaryFrame(frame, TimestampAt(file, c.position), c.position, c.sequenceCounter + 1))))
  {
    hide FromBinaryFrame;
    var o := c.position;
    if o + 14 <= |file| {
      HeaderBytes(file, o);
      SyncBytes(file, o);
    }
    match ProbeBinary(file, o)
    case EndOfFile =>
    case NoFrame =>
    case Broken(_) =>
    case Frame(length) =>
      assert file[o..o + 6] + file[o + 6..o + 14] + file[o + 14..o + length] == file[o..o + length];
  }

  lemma CcsdsMeetsProbe(file: seq<byte>, c: Cursor)
    requires c.position == c.currentOffset
    ensures
      var reading := CcsdsReading(file, c);
      match ProbeCcsds(file, c.position)
      case EndOfFile => reading.item.None?
      case NoFrame => true
      case Broken(_) => true
      case Frame(length) =>
        var frame := file[c.position..c.position + length];
        if length < 14 then reading.item == Some(Err(TimestampCorruption))
        else
          reading == Reading(
            Advance(c, length),
            Some(Ok(FromCcsdsFrame(frame, TimestampAt(file, c.position), c.position, c.sequenceCounter + 1))))
  {
    var o := c.position;
    if o + 6 <= |file| {
      HeaderBytes(file, o);
    }
    match ProbeCcsds(file, o)
    case EndOfFile =>
    case NoFrame =>
    case Broken(_) =>
    case Frame(length) =>
      assert file[o..o + 6] + file[o + 6..o + length] == file[o..o + length];
      if length >= 14 {
        assert file[o + 6..o + length][..8] == file[o + 6..o + 14];
      }
  }

  // What the iterator does at a frame that the scan has found.
  lemma NextMeetsFrame(file: seq<byte>, format: Format, c: Cursor)
    requires !format.Unsupported? && !c.finished && c.position == c.currentOffset
    requires ProbeAt(file, format, c.position).Frame?
    ensures
      var reading := NextReading(file, format, c);
      var probe := ProbeAt(file, format, c.position);
      if format.Ccsds? && probe.length < 14 then
        reading.item == Some(Err(TimestampCorruption)) && reading.cursor.finished
      else
        reading == Reading(Advance(c, probe.length), Some(Ok(
          PacketOf(file, format, IndexEntry(c.position, TimestampAt(file, c.position)), c.sequenceCounter + 1))))
  {
    hide BinaryReading, CcsdsReading;
    if format.Binary? {
      BinaryMeetsProbe(file, c);
    } else {
      CcsdsMeetsProbe(file, c);
    }
  }

  lemma NextBetweenFrames(file: seq<byte>, format: Format, c: Cursor)
    requires !format.Unsupported? && !c.finished && c.position == c.currentOffset
    ensures
      var reading := NextReading(file, format, c);
      match ProbeAt(file, format, c.position)
      case EndOfFile => reading.item.None?
      case NoFrame => reading == Fail(c.(position := c.position + 1, currentOffset := c.position + 1), PacketCorruption)
      case _ => true
  {
    if format.Binary? {
      BinaryMeetsProbe(file, c);
    } else {
      CcsdsMeetsProbe(file, c);
    }
  }

  predicate OnTrack(file: seq<byte>, c: Cursor) { !c.finished && c.position == c.currentOffset <= |file| }

  // The cursor has passed the first entries of the index, as many as it has counted.
  ghost predicate AtEntry(file: seq<byte>, format: Format, c: Cursor, entries: seq<IndexEntry>) {
    c.sequenceCounter <= |entries| && Scan(file, format, c.position) == Ok(entries[c.sequenceCounter..])
  }

  lemma PassFrame(file: seq<byte>, format: Format, c: Cursor, entries: seq<IndexEntry>)
    requires AtEntry(file, format, c, entries) && ProbeAt(file, format, c.position).Frame?
    ensures
      var probe := ProbeAt(file, format, c.position);
      && c.sequenceCounter < |entries|
      && entries[c.sequenceCounter] == IndexEntry(c.position, TimestampAt(file, c.position))
      && AtEntry(file, format, Advance(c, probe.length), entries)
  {
    var probe := ProbeAt(file, format, c.position);
    var rest := entries[c.sequenceCounter..];
    assert rest ==
      [IndexEntry(c.position, TimestampAt(file, c.position))] + Scan(file, format, c.position + probe.length).value;
    assert rest[0] == entries[c.sequenceCounter] && rest[1..] == entries[c.sequenceCounter + 1..];
  }

  // One call of `next`, on a file that can be indexed from here on.
  lemma NextKeepsPace(file: seq<byte>, format: Format, c: Cursor, entries: seq<IndexEntry>)
    requires !format.Unsupported? && OnTrack(file, c) && AtEntry(file, format, c, entries)
    ensures
      var reading := NextReading(file, format, c);
      var next := reading.cursor;
      match reading.item
      case None => c.sequenceCounter == |entries| && StampsFit(file, format, c.position)
      case Some(Ok(packet)) =>
        && c.sequenceCounter < |entries| && next.sequenceCounter == c.sequenceCounter + 1
        && ReadEntry(file, format, entries[c.sequenceCounter], next.sequenceCounter) == Ok(packet)
        && OnTrack(file, next) && AtEntry(file, format, next, entries)
        && (StampsFit(file, format, c.position) <==> StampsFit(file, format, next.position))
      case Some(Err(_)) =>
        && next.sequenceCounter == c.sequenceCounter
        && if next.finished then c.sequenceCounter < |entries| && !StampsFit(file, format, c.position)
           else
             && OnTrack(file, next) && AtEntry(file, format, next, entries)
             && (StampsFit(file, format, c.position) <==> StampsFit(file, format, next.position))
  {
    hide ReadEntry, PacketOf;
    match ProbeAt(file, format, c.position)
    case EndOfFile =>
      NextBetweenFrames(file, format, c);
      assert |entries[c.sequenceCounter..]| == 0;
    case NoFrame =>
      NextBetweenFrames(file, format, c);
    case Broken(_) =>
    case Frame(_) =>
      NextMeetsFrame(file, format, c);
      PassFrame(file, format, c, entries);
      IndexedEntryReads(file, format, entries[c.sequenceCounter], c.sequenceCounter + 1);
  }

  // Where the iterator is on an indexable file: at an entry, or at its end, early or not.
  ghost predicate OnPace(file: seq<byte>, format: Format, c: Cursor, more: bool, entries: seq<IndexEntry>, fit: bool) {
    if more && !c.finished then
      OnTrack(file, c) && AtEntry(file, format, c, entries) && (fit <==> StampsFit(file, format, c.position))
    else c.sequenceCounter == |entries| <==> fit
  }

  lemma StaysOnPace(file: seq<byte>, format: Format, c: Cursor, entries: seq<IndexEntry>, fit: bool)
    requires !format.Unsupported? && OnPace(file, format, c, true, entries, fit)
    ensures
      var reading := NextReading(file, format, c);
      && OnPace(file, format, reading.cursor, reading.item.Some?, entries, fit)
      && (reading.item.Some? && reading.item.value.Ok? ==>
            && c.sequenceCounter < |entries| && reading.cursor.sequenceCounter == c.sequenceCounter + 1
            && reading.item.value == ReadEntry(file, format, entries[c.sequenceCounter], c.sequenceCounter + 1))
      && (reading.item.None? || reading.item.value.Err? ==> reading.cursor.sequenceCounter == c.sequenceCounter)
  {
    if !c.finished {
      NextKeepsPace(file, format, c, entries);
    }
  }

  /* Reported offsets */

  // Where n calls of `next` leave the iterator.
  function CursorAfter(file: seq<byte>, format: Format, n: nat): Cursor
    requires !format.Unsupported?
  {
    if n == 0 then START else NextReading(file, format, CursorAfter(file, format, n - 1)).cursor
  }

  // What the next call after n calls returns.
  function ItemAfter(file: seq<byte>, format: Format, n: nat): Option<Item>
    requires !format.Unsupported?
  {
    NextReading(file, format, CursorAfter(file, format, n)).item
  }

  predicate Yields(item: Option<Item>) { item.Some? && item.value.Ok? }

  // The packet carries the bytes at the offset it reports.
  predicate LocatedRight(file: seq<byte>, packet: ReplayPacket) {
    var o, n := packet.fileOffset, |packet.rawData|;
    o + n <= |file| && packet.rawData == file[o..o + n]
  }

  ghost predicate AllLocatedRight(file: seq<byte>, format: Format, n: nat)
    requires !format.Unsupported?
  {
    forall k :: 0 <= k < n && Yields(ItemAfter(file, format, k)) ==>
      LocatedRight(file, ItemAfter(file, format, k).value.value)
  }

  // How many headers without a secondary header the first n calls have met.
  function Skipped(file: seq<byte>, format: Format, n: nat): nat
    requires !format.Unsupported?
  {
    if n == 0 then 0
    else
      Skipped(file, format, n - 1) +
      if format.Ccsds? && ItemAfter(file, format, n - 1) == Some(Err(PacketCorruption)) then 1 else 0
  }

  // Only CCSDS headers are skipped.
  lemma {:induction false} NothingSkipped(file: seq<byte>, format: Format, n: nat)
    requires !format.Unsupported?
    ensures Skipped(file, format, n) > 0 ==> format.Ccsds?
  {
    hide NextReading;
    if n > 0 { NothingSkipped(file, format, n - 1); }
  }

  // Each of them moves the reader by its six bytes, and the offset by none.
  lemma {:induction false} ReaderLeads(file: seq<byte>, format: Format, n: nat)
    requires !format.Unsupported?
    ensures
      var c := CursorAfter(file, format, n);
      !c.finished ==> c.position == c.currentOffset + 6 * Skipped(file, format, n)
  {
    hide NextReading;
    if n > 0 {
      ReaderLeads(file, format, n - 1);
      NothingSkipped(file, format, n - 1);
      ReadingLeads(file, format, CursorAfter(file, format, n - 1));
    }
  }

  lemma ReadingLeads(file: seq<byte>, format: Format, c: Cursor)
    requires !format.Unsupported? && (format.Binary? && !c.finished ==> c.position == c.currentOffset)
    ensures
      var reading := NextReading(file, format, c);
      var next := reading.cursor;
      !next.finished ==>
        && !c.finished
        && next.position - next.currentOffset ==
           c.position - c.currentOffset +
           if format.Ccsds? && reading.item == Some(Err(PacketCorruption)) then 6 else 0
  {}

  // A packet is read six bytes beyond its reported offset for each header skipped before.
  lemma PacketPlace(file: seq<byte>, format: Format, n: nat)
    requires !format.Unsupported?
    ensures Yields(ItemAfter(file, format, n)) ==>
      var packet := ItemAfter(file, format, n).value.value;
      var o := packet.fileOffset + 6 * Skipped(file, format, n);
      o + |packet.rawData| <= |file| && packet.rawData == file[o..o + |packet.rawData|]
  {
    hide NextReading;
    ReaderLeads(file, format, n);
    if Yields(ItemAfter(file, format, n)) {
      YieldedBytes(file, format, CursorAfter(file, format, n));
    }
  }

  lemma YieldedBytes(file: seq<byte>, format: Format, c: Cursor)
    requires !format.Unsupported? && Yields(NextReading(file, format, c).item)
    ensures
      var reading := NextReading(file, format, c);
      var packet := reading.item.value.value;
      && !c.finished && packet.fileOffset == c.currentOffset && c.position + |packet.rawData| <= |file|
      && packet.rawData == file[c.position..c.position + |packet.rawData|]
      && |packet.rawData| > 0
      && (format.Ccsds? ==> file[c.position] / 8 % 2 == 1)
  {
    hide BinaryReading, CcsdsReading;
    if format.Binary? {
      BinaryBytes(file, c);
    } else {
      CcsdsBytes(file, c);
    }
  }

  lemma BinaryBytes(file: seq<byte>, c: Cursor)
    requires Yields(BinaryReading(file, c).item)
    ensures
      var packet := BinaryReading(file, c).item.value.value;
      && packet.fileOffset == c.currentOffset && c.position + |packet.rawData| <= |file| && |packet.rawData| > 0
      && packet.rawData == file[c.position..c.position + |packet.rawData|]
  {
    var o := c.position;
    assert o + 6 <= |file|;
    HeaderBytes(file, o);
    hide BigEndian;
    var length := 14 + U16(file[o + 4], file[o + 5]);
    var rawData := BinaryReading(file, c).item.value.value.rawData;
    assert rawData == file[o..o + 6] + file[o + 6..o + 14] + file[o + 14..o + length];
    assert file[o..o + 6] + file[o + 6..o + 14] + file[o + 14..o + length] == file[o..o + length];
  }

  lemma CcsdsBytes(file: seq<byte>, c: Cursor)
    requires Yields(CcsdsReading(file, c).item)
    ensures
      var packet := CcsdsReading(file, c).item.value.value;
      && packet.fileOffset == c.currentOffset && c.position + |packet.rawData| <= |file| && |packet.rawData| > 0
      && packet.rawData == file[c.position..c.position + |packet.rawData|]
      && file[c.position] / 8 % 2 == 1
  {
    var o := c.position;
    assert o + 6 <= |file|;
    HeaderBytes(file, o);
    var length := 7 + U16(file[o + 4], file[o + 5]);
    assert file[o..o + 6] + file[o + 6..o + length] == file[o..o + length];
  }

  // As long as no packet has come after a skipped header, the offset stays at the first of them.
  lemma {:induction false} OffsetAtSkipped(file: seq<byte>, format: Format, n: nat)
    requires !format.Unsupported? && Skipped(file, format, n) > 0 && !CursorAfter(file, format, n).finished
    requires forall k :: 0 <= k < n && Yields(ItemAfter(file, format, k)) ==> Skipped(file, format, k) == 0
    ensures
      var o := CursorAfter(file, format, n).currentOffset;
      o < |file| && file[o] / 8 % 2 == 0
  {
    hide NextReading;
    NothingSkipped(file, format, n);
    ReaderLeads(file, format, n - 1);
    var c := CursorAfter(file, format, n - 1);
    SkipOrStay(file, format, c);
    if Skipped(file, format, n - 1) > 0 {
      OffsetAtSkipped(file, format, n - 1);
    }
  }

  lemma SkipOrStay(file: seq<byte>, format: Format, c: Cursor)
    requires format.Ccsds?
    ensures
      var reading := NextReading(file, format, c);
      && (!reading.cursor.finished && !Yields(reading.item) ==>
            !c.finished && reading.cursor.currentOffset == c.currentOffset)
      && (reading.item == Some(Err(PacketCorruption)) ==> c.position < |file| && file[c.position] / 8 % 2 == 0)
  {}

  lemma FirstAfterSkips(file: seq<byte>, format: Format, n: nat)
    requires !format.Unsupported? && Yields(ItemAfter(file, format, n))
    requires forall k :: 0 <= k < n && Yields(ItemAfter(file, format, k)) ==> Skipped(file, format, k) == 0
    ensures LocatedRight(file, ItemAfter(file, format, n).value.value) <==> Skipped(file, format, n) == 0
  {
    hide NextReading;
    var packet, c := ItemAfter(file, format, n).value.value, CursorAfter(file, format, n);
    PacketPlace(file, format, n);
    YieldedBytes(file, format, c);
    if Skipped(file, format, n) > 0 {
      OffsetAtSkipped(file, format, n);
      NothingSkipped(file, format, n);
      assert packet.rawData[0] == file[c.position] != file[c.currentOffset];
    }
  }

  // All packets that n calls yield are located right if and only if none of them comes after a header
  // without a secondary header; files of sync-word frames are always located right.
  lemma {:induction false} AllLocatedRightIff(file: seq<byte>, format: Format, n: nat)
    requires !format.Unsupported?
    ensures AllLocatedRight(file, format, n) <==>
      forall k :: 0 <= k < n && Yields(ItemAfter(file, format, k)) ==> Skipped(file, format, k) == 0
  {
    hide NextReading;
    if n > 0 {
      AllLocatedRightIff(file, format, n - 1);
      if Yields(ItemAfter(file, format, n - 1)) && AllLocatedRight(file, format, n - 1) {
        FirstAfterSkips(file, format, n - 1);
      }
    }
  }

  // A header without a secondary header, and a packet.
  const HEADER_THEN_PACKET: seq<byte> := [0, 0, 0, 0, 0, 0, 8, 0, 0, 0, 0, 7, 1, 2, 3, 4, 5, 6, 7, 8]

  // It can happen: the packet behind such a header is read from byte 6 and reported at byte 0.
  lemma PacketMislocated()
    ensures
      var item := ItemAfter(HEADER_THEN_PACKET, Ccsds, 1);
      && Yields(item) && item.value.value.fileOffset == 0 && item.value.value.rawData == HEADER_THEN_PACKET[6..20]
      && !LocatedRight(HEADER_THEN_PACKET, item.value.value)
  {
    HeaderSkipped(HEADER_THEN_PACKET);
    PacketBehind(HEADER_THEN_PACKET, Cursor(6, 0, 0, 0, false));
    assert HEADER_THEN_PACKET[6..20][0] != HEADER_THEN_PACKET[0];
  }

  lemma HeaderSkipped(file: seq<byte>)
    requires |file| >= 6 && file[0] / 8 % 2 == 0
    ensures CursorAfter(file, Ccsds, 1) == Cursor(6, 0, 0, 0, false)
  {
    assert file[0..6][0] == file[0];
    assert CursorAfter(file, Ccsds, 0) == START;
  }

  lemma PacketBehind(file: seq<byte>, c: Cursor)
    requires c == Cursor(6, 0, 0, 0, false) && |file| == 20 && file[6] / 8 % 2 == 1 && file[10] == 0 && file[11] == 7
    ensures
      var item := NextReading(file, Ccsds, c).item;
      Yields(item) && item.value.value.fileOffset == 0 && item.value.value.rawData == file[6..20]
  {
    HeaderBytes(file, 6);
    assert file[6..12] + file[12..20] == file[6..20];
  }

  // Running the iterator to its end and dropping its error reports: on a file that `build` accepts
  // this gives the packets of the index, exactly when every frame has room for a timestamp.
  method CollectPackets(it: PacketIterator) returns (packets: seq<Item>)
    requires !it.format.Unsupported? && it.State() == START
    modifies it
    ensures Built(it.file, it.format).Ok? ==>
      (packets == ReadAll(it.file, it.format, Built(it.file, it.format).value.entries, 0) <==>
       StampsFit(it.file, it.format, 0))
  {
    ghost var indexable, fit := Built(it.file, it.format).Ok?, StampsFit(it.file, it.format, 0);
    ghost var entries := if indexable then Built(it.file, it.format).value.entries else [];
    assert indexable ==> entries[0..] == entries;
    packets := Drain(it, indexable, entries, fit);
  }

  // The loop over the iterator; the ghost parameters are what it is measured against.
  method Drain(it: PacketIterator, ghost indexable: bool, ghost entries: seq<IndexEntry>, ghost fit: bool)
    returns (packets: seq<Item>)
    requires !it.format.Unsupported? && Aligned(it.file, it.format, it.State()) && it.sequenceCounter == 0
    requires indexable ==> OnPace(it.file, it.format, it.State(), true, entries, fit)
    modifies it
    ensures indexable ==> packets <= ReadAll(it.file, it.format, entries, 0) && (|packets| == |entries| <==> fit)
  {
    packets := [];
    var more := true;
    while more
      invariant Aligned(it.file, it.format, it.State())
      invariant indexable ==> OnPace(it.file, it.format, it.State(), more, entries, fit)
      invariant indexable ==> |packets| == it.sequenceCounter && packets <= ReadAll(it.file, it.format, entries, 0)
      decreases more, !it.finished, |it.file| - it.position
    {
      NextProgresses(it.file, it.format, it.State());
      if indexable {
        StaysOnPace(it.file, it.format, it.State(), entries, fit);
      }
      var item := it.Next();
      if item.Some? && item.value.Ok? {
        packets := packets + [item.value];
      }
      more := item.Some?;
    }
  }
}
