/** How recordings are refused: what breaks an index, and what each call of the streaming reader makes of the
    bytes it stands at. */
module RecordingFaults {
  import opened Prelude
  import opened Bytes
  import opened FrameIndex
  import opened FileReader
  import opened PacketIterator

  /* The bytes at an offset */

  predicate Marked(file: seq<byte>, o: nat) { o + 4 <= |file| && file[o..o + 4] == [0x1A, 0x2B, 0x3C, 0x4D] }

  // The 16-bit length that a header at this offset announces.
  function Announced(file: seq<byte>, o: nat): nat
    requires o + 6 <= |file|
  {
    256 * (file[o + 4] as nat) + file[o + 5] as nat
  }

  // A frame of this length stands here, all of it.
  predicate Stands(file: seq<byte>, format: Format, o: nat, length: nat) {
    && o + 14 <= |file| && o + length <= |file|
    && match format
       case Binary => Marked(file, o) && length == 14 + Announced(file, o)
       case Ccsds => file[o] / 8 % 2 == 1 && length == 7 + Announced(file, o)
       case Unsupported => false
  }

  // The scan gives up here.
  predicate Breaks(file: seq<byte>, format: Format, o: nat, error: ReplayError) {
    match format
    case Binary =>
      && o + 14 <= |file| && Marked(file, o) && o + 14 + Announced(file, o) > |file|
      && error == PacketCorruption
    case Ccsds =>
      && o + 6 <= |file|
      && if o + 7 + Announced(file, o) > |file| || file[o] / 8 % 2 == 0 then error == PacketCorruption
         else o + 14 > |file| && error == FileIo
    case Unsupported => error == Configuration
  }

  // Nothing starts here, but something could behind it.
  predicate PassedOver(file: seq<byte>, format: Format, o: nat) {
    format.Binary? && o + 14 <= |file| && !Marked(file, o)
  }

  lemma ProbeTells(file: seq<byte>, format: Format, o: nat)
    ensures forall length: nat :: ProbeAt(file, format, o) == Frame(length) <==> Stands(file, format, o, length)
    ensures forall error :: ProbeAt(file, format, o) == Broken(error) <==> Breaks(file, format, o, error)
    ensures ProbeAt(file, format, o).NoFrame? <==> PassedOver(file, format, o)
  {
    if o + 4 <= |file| {
      SyncBytes(file, o);
    }
  }

  /* Building an index */

  // The scan gets from one offset to the next, past a frame or a byte.
  predicate Passes(file: seq<byte>, format: Format, o: nat, next: nat) {
    if PassedOver(file, format, o) then next == o + 1 else next >= o && Stands(file, format, o, next - o)
  }

  ghost predicate Path(file: seq<byte>, format: Format, path: seq<nat>) {
    forall i :: 0 <= i < |path| - 1 ==> Passes(file, format, path[i], path[i + 1])
  }

  ghost predicate BreaksOff(file: seq<byte>, format: Format, from: nat, path: seq<nat>, error: ReplayError) {
    && path != [] && path[0] == from && Path(file, format, path)
    && Breaks(file, format, path[|path| - 1], error)
  }

  lemma {:induction false} ScanBreaksOff(file: seq<byte>, format: Format, from: nat) returns (path: seq<nat>)
    requires Scan(file, format, from).Err?
    ensures BreaksOff(file, format, from, path, Scan(file, format, from).error)
    decreases |file| - from
  {
    ProbeTells(file, format, from);
    hide ProbeAt, Stands, Breaks, PassedOver;
    match ProbeAt(file, format, from)
    case EndOfFile => path := [];
    case Broken(_) => path := [from];
    case NoFrame =>
      path := ScanBreaksOff(file, format, from + 1);
      path := [from] + path;
    case Frame(length) =>
      path := ScanBreaksOff(file, format, from + length);
      path := [from] + path;
  }

  lemma RestOfPath(file: seq<byte>, format: Format, path: seq<nat>)
    requires |path| > 1 && Path(file, format, path)
    ensures Path(file, format, path[1..])
  {
    var rest := path[1..];
    forall i | 0 <= i < |rest| - 1
      ensures Passes(file, format, rest[i], rest[i + 1])
    {
      assert Passes(file, format, path[i + 1], path[i + 1 + 1]);
    }
  }

  lemma {:induction false} BreaksOffScan(
    file: seq<byte>, format: Format, from: nat, path: seq<nat>, error: ReplayError)
    requires BreaksOff(file, format, from, path, error)
    ensures Scan(file, format, from) == Err(error)
    decreases |path|
  {
    ProbeTells(file, format, from);
    if |path| > 1 {
      hide ProbeAt, Stands, Breaks, PassedOver;
      RestOfPath(file, format, path);
      BreaksOffScan(file, format, path[1], path[1..], error);
    }
  }

  // An index is refused exactly for what the scan comes to from the start of the file: a frame that runs out of
  // the file, a packet without a secondary header or with too little behind it, or no frame at all.
  lemma BuildFailsIff(file: seq<byte>, format: Format, error: ReplayError)
    ensures Built(file, format) == Err(error) <==>
      || (exists path :: BreaksOff(file, format, 0, path, error))
      || (IsFraming(file, format, [], 0) && error == PacketCorruption)
  {
    hide Scan, BreaksOff, IsFraming;
    if Scan(file, format, 0).Err? {
      var path := ScanBreaksOff(file, format, 0);
    }
    forall path | BreaksOff(file, format, 0, path, error)
      ensures Scan(file, format, 0) == Err(error)
    {
      BreaksOffScan(file, format, 0, path, error);
    }
    BuildsIffFramed(file, format, []);
  }

  /* Calls of the streaming reader */

  // What a call makes of the bytes where the reader stands.
  ghost predicate Answers(file: seq<byte>, format: Format, c: Cursor, item: Option<Item>)
    requires !format.Unsupported?
  {
    var o := c.position;
    var header, overhead := if format.Binary? then 14 else 6, if format.Binary? then 14 else 7;
    if o + header > |file| then item == None
    else if format.Binary? && !Marked(file, o) then item == Some(Err(PacketCorruption))
    else if format.Ccsds? && file[o] / 8 % 2 == 0 then item == Some(Err(PacketCorruption))
    else if o + overhead + Announced(file, o) > |file| then item == Some(Err(FileIo))
    else if format.Ccsds? && Announced(file, o) < 7 then item == Some(Err(TimestampCorruption))
    else
      && item.Some? && item.value.Ok?
      && var packet := item.value.value;
      && packet.sequenceNumber == c.sequenceCounter + 1 && packet.fileOffset == c.currentOffset
      && packet.timestampNs == BigEndian(file[o + 6..o + 14])
      && packet.rawData == file[o..o + overhead + Announced(file, o)]
      && packet.payload == if format.Binary? then packet.rawData[14..] else packet.rawData
  }

  // How a call moves the reader on, and whether it was the last.
  ghost predicate Moves(file: seq<byte>, format: Format, c: Cursor, item: Option<Item>, next: Cursor) {
    if item.None? then next.finished
    else if item.value.Ok? then
      var length := |item.value.value.rawData|;
      next == Cursor(c.position + length, c.currentOffset + length, c.sequenceCounter + 1, c.packetsRead + 1, false)
    else if item.value.error.PacketCorruption? then
      next == if format.Binary? then c.(position := c.position + 1, currentOffset := c.position + 1)
              else c.(position := c.position + 6)
    else next.finished
  }

  lemma CallIs(file: seq<byte>, format: Format, c: Cursor)
    requires !format.Unsupported? && !c.finished && c.currentOffset <= c.position
    requires format.Binary? ==> c.currentOffset == c.position
    ensures
      var reading := NextReading(file, format, c);
      Answers(file, format, c, reading.item) && Moves(file, format, c, reading.item, reading.cursor)
  {
    if format.Binary? {
      BinaryCall(file, c);
    } else {
      CcsdsCall(file, c);
    }
  }

  lemma FramePacket(frame: seq<byte>, timestampNs: nat, o: nat, sequenceNumber: nat)
    requires |frame| >= 14
    ensures FromBinaryFrame(frame, timestampNs, o, sequenceNumber) ==
      ReplayPacket(sequenceNumber, timestampNs, o, frame, frame[14..])
  {}

  lemma BinaryCall(file: seq<byte>, c: Cursor)
    requires !c.finished && c.currentOffset == c.position
    ensures
      var reading := NextReading(file, Binary, c);
      Answers(file, Binary, c, reading.item) && Moves(file, Binary, c, reading.item, reading.cursor)
  {
    hide BigEndian, FromBinaryFrame;
    var o := c.position;
    if o + 14 <= |file| {
      HeaderBytes(file, o);
      var length := 14 + Announced(file, o);
      if Marked(file, o) && o + length <= |file| {
        assert file[o..o + 6] + file[o + 6..o + 14] + file[o + 14..o + length] == file[o..o + length];
        FramePacket(file[o..o + length], BigEndian(file[o + 6..o + 14]), c.currentOffset, c.sequenceCounter + 1);
      }
    }
  }

  lemma CcsdsCall(file: seq<byte>, c: Cursor)
    requires !c.finished && c.currentOffset <= c.position
    ensures
      var reading := NextReading(file, Ccsds, c);
      Answers(file, Ccsds, c, reading.item) && Moves(file, Ccsds, c, reading.item, reading.cursor)
  {
    hide BigEndian;
    var o := c.position;
    if o + 6 <= |file| {
      HeaderBytes(file, o);
      var length := 7 + Announced(file, o);
      if o + length <= |file| {
        assert file[o..o + 6] + file[o + 6..o + length] == file[o..o + length];
        if length >= 14 {
          assert file[o + 6..o + length][..8] == file[o + 6..o + 14];
        }
      }
    }
  }

  // How many packets the first n calls yielded.
  function Yielded(file: seq<byte>, format: Format, n: nat): nat
    requires !format.Unsupported?
  {
    if n == 0 then 0 else Yielded(file, format, n - 1) + if Yields(ItemAfter(file, format, n - 1)) then 1 else 0
  }

  // In every iteration from the start of a file each call is such a call, until the first that ends the
  // iteration; nothing comes after it. The packets are numbered in order and counted.
  lemma {:induction false} EveryCallIs(file: seq<byte>, format: Format, n: nat)
    requires !format.Unsupported?
    ensures
      var c := CursorAfter(file, format, n);
      && c.sequenceCounter == c.packetsRead == Yielded(file, format, n)
      && if c.finished then ItemAfter(file, format, n) == None
         else
           && Answers(file, format, c, ItemAfter(file, format, n))
           && Moves(file, format, c, ItemAfter(file, format, n), CursorAfter(file, format, n + 1))
  {
    hide NextReading, Answers, Moves;
    var c := CursorAfter(file, format, n);
    FinishedIsOver(file, format, c);
    if n > 0 {
      EveryCallIs(file, format, n - 1);
      CallCounts(file, format, CursorAfter(file, format, n - 1));
    }
    if !c.finished {
      ReaderLeads(file, format, n);
      NothingSkipped(file, format, n);
      CallIs(file, format, c);
    }
  }

  lemma FinishedIsOver(file: seq<byte>, format: Format, c: Cursor)
    requires !format.Unsupported?
    ensures c.finished ==> NextReading(file, format, c) == Reading(c, None)
  {}

  lemma CallCounts(file: seq<byte>, format: Format, c: Cursor)
    requires !format.Unsupported?
    ensures
      var reading := NextReading(file, format, c);
      var more := if Yields(reading.item) then 1 else 0;
      && reading.cursor.sequenceCounter == c.sequenceCounter + more
      && reading.cursor.packetsRead == c.packetsRead + more
  {}
}
