/** Recordings of CCSDS packets: indexing and reading give back what was recorded, as they do for
    recordings of sync-word frames; and what `open` reports of a recording. */
module CcsdsRecordings {
  import opened Prelude
  import opened Bytes
  import opened FrameIndex
  import opened FileReader

  // A packet with a secondary header: the four bytes before its length field, its time and its data.
  datatype Packet = Packet(head: seq<byte>, timestampNs: nat, data: seq<byte>)

  predicate Recorded(p: Packet) {
    |p.head| == 4 && p.head[0] / 8 % 2 == 1 && p.timestampNs < Pow256(8) && |p.data| + 7 < 0x1_0000
  }

  // Its bytes; the length field counts one less than timestamp and data have.
  function PacketBytes(p: Packet): (bytes: seq<byte>)
    requires Recorded(p)
    ensures |bytes| == 14 + |p.data|
  {
    var field := 7 + |p.data|;
    p.head + [field / 256, field % 256] + BigEndianBytes(p.timestampNs, 8) + p.data
  }

  function Stream(packets: seq<Packet>): seq<byte>
    requires forall p :: p in packets ==> Recorded(p)
  {
    if packets == [] then [] else PacketBytes(packets[0]) + Stream(packets[1..])
  }

  function StreamEntries(packets: seq<Packet>, o: nat): (entries: seq<IndexEntry>)
    ensures |entries| == |packets|
  {
    if packets == [] then []
    else [IndexEntry(o, packets[0].timestampNs)] + StreamEntries(packets[1..], o + 14 + |packets[0].data|)
  }

  lemma ProbeOfPacket(file: seq<byte>, o: nat, p: Packet)
    requires Recorded(p) && o + 14 + |p.data| <= |file| && file[o..o + 14 + |p.data|] == PacketBytes(p)
    ensures ProbeCcsds(file, o) == Frame(14 + |p.data|) && TimestampAt(file, o) == p.timestampNs
  {
    var bytes, stamp := PacketBytes(p), BigEndianBytes(p.timestampNs, 8);
    BigEndianRoundTrip(p.timestampNs, 8);
    forall i | 0 <= i < 14
      ensures file[o + i] == bytes[i]
    {
      assert file[o..o + |bytes|][i] == bytes[i];
    }
    assert bytes[6..14] == stamp;
    assert file[o + 6..o + 14] == bytes[6..14];
  }

  lemma ScanAtPacket(file: seq<byte>, o: nat, p: Packet)
    requires Recorded(p) && o + 14 + |p.data| <= |file| && file[o..o + 14 + |p.data|] == PacketBytes(p)
    ensures
      var rest := Scan(file, Ccsds, o + 14 + |p.data|);
      Scan(file, Ccsds, o) == if rest.Err? then rest else Ok([IndexEntry(o, p.timestampNs)] + rest.value)
  {
    hide PacketBytes, ProbeCcsds, TimestampAt;
    ProbeOfPacket(file, o, p);
  }

  lemma ScanAtEnd(file: seq<byte>)
    ensures Scan(file, Ccsds, |file|) == Ok([])
  {}

  // Indexing the recording gives back its timestamps and packet positions.
  lemma {:induction false} StreamRoundTrip(before: seq<byte>, packets: seq<Packet>)
    requires forall p :: p in packets ==> Recorded(p)
    ensures Scan(before + Stream(packets), Ccsds, |before|) == Ok(StreamEntries(packets, |before|))
    decreases packets
  {
    hide PacketBytes, Scan;
    if packets == [] {
      ScanAtEnd(before + Stream(packets));
    } else {
      var p, rest := packets[0], packets[1..];
      var bytes := PacketBytes(p);
      Embedded(before, bytes, Stream(rest));
      ScanAtPacket(before + Stream(packets), |before|, p);
      StreamRoundTrip(before + bytes, rest);
    }
  }

  // Each read returns the recorded packet, byte for byte.
  lemma {:induction false} StreamReadsBack(before: seq<byte>, packets: seq<Packet>, i: nat, sequenceNumber: nat)
    requires (forall p :: p in packets ==> Recorded(p)) && i < |packets|
    ensures
      var file, entries := before + Stream(packets), StreamEntries(packets, |before|);
      && entries[i].timestampNs == packets[i].timestampNs
      && ReadEntry(file, Ccsds, entries[i], sequenceNumber) ==
         Ok(FromCcsdsFrame(PacketBytes(packets[i]), packets[i].timestampNs, entries[i].fileOffset, sequenceNumber))
    decreases i
  {
    hide PacketBytes, ReadEntry, FromCcsdsFrame;
    var file, bytes := before + Stream(packets), PacketBytes(packets[0]);
    Embedded(before, bytes, Stream(packets[1..]));
    if i == 0 {
      PacketReadsBack(file, |before|, packets[0], sequenceNumber);
    } else {
      StreamReadsBack(before + bytes, packets[1..], i - 1, sequenceNumber);
    }
  }

  lemma PacketReadsBack(file: seq<byte>, o: nat, p: Packet, sequenceNumber: nat)
    requires Recorded(p) && o + 14 + |p.data| <= |file| && file[o..o + 14 + |p.data|] == PacketBytes(p)
    ensures ReadEntry(file, Ccsds, IndexEntry(o, p.timestampNs), sequenceNumber) ==
      Ok(FromCcsdsFrame(PacketBytes(p), p.timestampNs, o, sequenceNumber))
  {
    hide PacketBytes;
    ProbeOfPacket(file, o, p);
    IndexedEntryReads(file, Ccsds, IndexEntry(o, p.timestampNs), sequenceNumber);
  }

  // Such a recording is indexed whole, and every packet comes back with its bytes and its time.
  lemma CcsdsReadsBack(packets: seq<Packet>, i: nat)
    requires (forall p :: p in packets ==> Recorded(p)) && i < |packets|
    ensures
      var file, entries := Stream(packets), StreamEntries(packets, 0);
      && Built(file, Ccsds) == Ok(IndexOf(entries))
      && ReadEntry(file, Ccsds, entries[i], i + 1).Ok?
      && ReadEntry(file, Ccsds, entries[i], i + 1).value.rawData == PacketBytes(packets[i])
      && ReadEntry(file, Ccsds, entries[i], i + 1).value.payload == PacketBytes(packets[i])
      && ReadEntry(file, Ccsds, entries[i], i + 1).value.timestampNs == packets[i].timestampNs
      && ReadEntry(file, Ccsds, entries[i], i + 1).value.sequenceNumber == i + 1
  {
    hide PacketBytes, ReadEntry, Scan;
    assert [] + Stream(packets) == Stream(packets);
    StreamRoundTrip([], packets);
    StreamReadsBack([], packets, i, i + 1);
  }

  /* What `open` reports */

  // The count, the first and last timestamps, and the time between, which is zero if they run backwards.
  predicate Summarises(metadata: SourceMetadata, times: seq<nat>, size: nat)
    requires times != []
  {
    var first, last := times[0], times[|times| - 1];
    && metadata.totalPackets == |times| && metadata.startTimestampNs == first && metadata.endTimestampNs == last
    && metadata.fileSizeBytes == size && metadata.durationNs == (if first <= last then last - first else 0)
  }

  function RecordTimes(records: seq<Record>): (times: seq<nat>)
    ensures |times| == |records| && forall i :: 0 <= i < |times| ==> times[i] == records[i].timestampNs
  {
    seq(|records|, i requires 0 <= i < |records| => records[i].timestampNs)
  }

  function PacketTimes(packets: seq<Packet>): (times: seq<nat>)
    ensures |times| == |packets| && forall i :: 0 <= i < |times| ==> times[i] == packets[i].timestampNs
  {
    seq(|packets|, i requires 0 <= i < |packets| => packets[i].timestampNs)
  }

  lemma SummaryOf(entries: seq<IndexEntry>, times: seq<nat>, size: nat)
    requires entries != [] && |entries| == |times| && entries[0].timestampNs == times[0]
    requires entries[|entries| - 1].timestampNs == times[|times| - 1]
    ensures Summarises(MetadataOf(IndexOf(entries), size), times, size)
  {}

  // Opening a recording reports the times that were recorded.
  lemma RecordingSummary(records: seq<Record>, packets: seq<Packet>, size: nat)
    requires records != [] && (forall r :: r in records ==> Recordable(r))
    requires packets != [] && (forall p :: p in packets ==> Recorded(p))
    ensures Built(Recording(records), Binary).Ok? && Built(Stream(packets), Ccsds).Ok?
    ensures Summarises(MetadataOf(Built(Recording(records), Binary).value, size), RecordTimes(records), size)
    ensures Summarises(MetadataOf(Built(Stream(packets), Ccsds).value, size), PacketTimes(packets), size)
  {
    hide Built, ReadEntry, Summarises, IndexOf;
    RecordingReadsBack(records, 0);
    RecordingReadsBack(records, |records| - 1);
    SummaryOf(EntriesOf(records, 0), RecordTimes(records), size);
    CcsdsReadsBack(packets, 0);
    StreamReadsBack([], packets, 0, 0);
    StreamReadsBack([], packets, |packets| - 1, 0);
    SummaryOf(StreamEntries(packets, 0), PacketTimes(packets), size);
  }
}
