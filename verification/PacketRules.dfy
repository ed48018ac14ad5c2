/** Which packets the decoder accepts and how it refuses the others, told from the bits that were received. */
module PacketRules {
  import opened Prelude
  import opened Bytes
  import opened BitStrings
  import opened Gf2
  import opened Crc16
  import opened SpacePacket

  /* The primary header */

  // The number written by these bits of the packet.
  function Number(data: seq<byte>, from: nat, to: nat): nat
    requires from <= to <= 8 * |data|
  {
    ValueOf(Bits(data)[from..to])
  }

  lemma SmallPowers()
    ensures Pow2(0) == 1 && Pow2(1) == 2 && Pow2(2) == 4 && Pow2(3) == 8 && Pow2(11) == 0x800
    ensures Pow2(12) == 0x1000 && Pow2(13) == 0x2000 && Pow2(14) == 0x4000 && Pow2(16) == 0x1_0000
  {
    Pow2Of8();
    Pow2Adds(8, 8);
  }

  lemma PairBits(data: seq<byte>, at: nat)
    requires at + 2 <= |data|
    ensures Bits(data)[8 * at..8 * at + 16] == Bits([data[at], data[at + 1]])
  {
    hide Bits, ByteBit;
    var pair := [data[at], data[at + 1]];
    forall i | 0 <= i < 16
      ensures Bits(data)[8 * at + i] == Bits(pair)[i]
    {
      BitsAt(data, 8 * at + i);
      BitsAt(pair, i);
      assert (8 * at + i) / 8 == at + i / 8 && (8 * at + i) % 8 == i % 8;
    }
  }

  lemma PairIsWord(hi: byte, lo: byte)
    ensures ValueOf(Bits([hi, lo])) == HeaderWord(hi, lo)
  {
    hide Bits, ValueOf;
    var pair := [hi, lo];
    BitsAreBigEndian(pair);
    assert pair[..1] == [hi] && BigEndian([hi]) == hi as nat;
  }

  lemma SliceOfSlice(bits: seq<bool>, pair: seq<bool>, start: nat, from: nat, to: nat)
    requires start + |pair| <= |bits| && bits[start..start + |pair|] == pair && from <= to <= |pair|
    ensures bits[start + from..start + to] == pair[from..to]
  {
    forall i | 0 <= i < to - from
      ensures bits[start + from..start + to][i] == pair[from..to][i]
    {
      assert bits[start + (from + i)] == bits[start..start + |pair|][from + i];
    }
  }

  // Bits of a 16-bit word of the packet.
  lemma NumberInPair(data: seq<byte>, at: nat, from: nat, to: nat)
    requires at + 2 <= |data| && from <= to <= 16
    ensures Number(data, 8 * at + from, 8 * at + to) ==
      HeaderWord(data[at], data[at + 1]) / Pow2(16 - to) % Pow2(to - from)
  {
    hide Bits, Pow2, ValueOf, HeaderWord;
    var pair := Bits([data[at], data[at + 1]]);
    PairBits(data, at);
    SliceOfSlice(Bits(data), pair, 8 * at, from, to);
    PairIsWord(data[at], data[at + 1]);
    ValueOfSlice(pair, from, to);
  }

  lemma NumberIs(data: seq<byte>, at: nat, from: nat, to: nat, below: nat, size: nat)
    requires at + 2 <= |data| && from <= to <= 16 && below == Pow2(16 - to) && size == Pow2(to - from)
    ensures Number(data, 8 * at + from, 8 * at + to) == HeaderWord(data[at], data[at + 1]) / below % size
  {
    hide Number, HeaderWord, Pow2;
    NumberInPair(data, at, from, to);
  }

  lemma IdBits(data: seq<byte>)
    requires |data| >= 2
    ensures
      var word := HeaderWord(data[0], data[1]);
      && Number(data, 0, 3) == word / 0x2000 % 8 && Number(data, 3, 4) == word / 0x1000 % 2
      && Bits(data)[4] == (word / 0x800 % 2 != 0) && Number(data, 5, 16) == word % 0x800
  {
    hide Bits, Pow2, Number, HeaderWord;
    SmallPowers();
    NumberIs(data, 0, 0, 3, 0x2000, 8);
    NumberIs(data, 0, 3, 4, 0x1000, 2);
    NumberIs(data, 0, 5, 16, 1, 0x800);
    BitsAt(data, 4);
  }

  lemma SequenceBits(data: seq<byte>)
    requires |data| >= 4
    ensures
      var word := HeaderWord(data[2], data[3]);
      Number(data, 16, 18) == word / 0x4000 % 4 && Number(data, 18, 32) == word % 0x4000
  {
    hide Bits, Pow2, Number, HeaderWord;
    SmallPowers();
    NumberIs(data, 2, 0, 2, 0x4000, 4);
    NumberIs(data, 2, 2, 16, 1, 0x4000);
  }

  lemma LengthBits(data: seq<byte>)
    requires |data| >= 6
    ensures Number(data, 32, 48) == HeaderWord(data[4], data[5])
  {
    hide Bits, Pow2, Number, HeaderWord;
    SmallPowers();
    NumberIs(data, 4, 0, 16, 1, 0x1_0000);
  }

  // The header is laid out as in section 4.1.3 of CCSDS 133.0-B-2: 3 bits of version, a type bit, the flag
  // of the secondary header, 11 bits of APID, 2 of sequence flags, 14 of sequence count, 16 of length.
  lemma HeaderIsItsBits(data: seq<byte>)
    ensures |data| < 6 ==> ParsePrimaryHeader(data) == Err(PacketTooShort(|data|))
    ensures |data| >= 6 ==>
      && ParsePrimaryHeader(data).Ok?
      && var header := ParsePrimaryHeader(data).value;
      && header.version == Number(data, 0, 3) && header.packetType == Number(data, 3, 4)
      && header.secHdrFlag == Bits(data)[4] && header.apid == Number(data, 5, 16)
      && header.seqFlags == Number(data, 16, 18) && header.seqCount == Number(data, 18, 32)
      && header.dataLength == Number(data, 32, 48)
  {
    hide Bits, Number, HeaderWord;
    if |data| >= 6 {
      IdBits(data);
      SequenceBits(data);
      LengthBits(data);
    }
  }

  /* The rules */

  // What the whole packet is told, rule by rule; w is the remainder of its polynomial without the CRC.
  ghost predicate Told(data: seq<byte>, checkCrc: bool, w: Word, r: Result<Unit, DecoderError>)
    requires |data| >= 6
  {
    var version, declared, actual := Number(data, 0, 3), Number(data, 32, 48) + 1, |data| - 6;
    var stored := Bits(data)[8 * |data| - 16..];
    if version != 0 then r.Err? && r.error.InvalidVersion? && r.error.version == version
    else if declared != actual then r == Err(LengthMismatch(declared, actual))
    else if !checkCrc || stored == w then r == Ok(Unit)
    else r == Err(CrcMismatch(stored, w))
  }

  // A packet is refused for the first rule it breaks, with the values that break it, and accepted if it
  // breaks none: its version is 0, as many bytes follow the header as that announces, and its last two
  // bytes hold the remainder that the bits before them leave when divided by the generator.
  lemma PacketIsTold(data: seq<byte>, checkCrc: bool, w: Word)
    requires |data| >= 6 && IsRemainder(Dividend(Bits(data[..|data| - 2])), w)
    ensures ParsePrimaryHeader(data).Ok?
    ensures Told(data, checkCrc, w, ValidateAll(data, ParsePrimaryHeader(data).value, checkCrc))
  {
    hide Bits, ValueOf, Pow2, Number, Crc, IsRemainder, Dividend, ParsePrimaryHeader, ByteBits;
    HeaderIsItsBits(data);
    CrcIsRemainder(data[..|data| - 2]);
    assert w == Crc(data[..|data| - 2]);
    StoredBits(data);
  }

  lemma StoredBits(data: seq<byte>)
    requires |data| >= 2
    ensures Bits(data)[8 * |data| - 16..] == StoredCrc(data)
  {
    assert data[..|data| - 1][..|data| - 2] == data[..|data| - 2];
  }

  /* The generator */

  // A generated packet is its header, its timestamp, its payload and the CRC of these, complemented if it
  // is to be wrong.
  lemma GeneratedCarries(
    apid: nat, seqCount: nat, timestamp: seq<byte>, payload: seq<byte>, faults: Faults, w: Word)
    requires |timestamp| == 8
    requires
      var packet := GeneratePacket(apid, seqCount, timestamp, payload, faults);
      |packet| >= 2 && IsRemainder(Dividend(Bits(packet[..|packet| - 2])), w)
    ensures
      var packet, n := GeneratePacket(apid, seqCount, timestamp, payload, faults), |payload|;
      && |packet| == n + 16 && packet[6..14] == timestamp && packet[14..n + 14] == payload
      && forall i :: 0 <= i < 16 ==> Bits(packet)[8 * (n + 14) + i] == if faults.corruptCrc then !w[i] else w[i]
  {
    hide Bits, ValueOf, Crc, IsRemainder, Dividend, GeneratedHeader, ByteBits, ByteOf;
    var packet, n := GeneratePacket(apid, seqCount, timestamp, payload, faults), |payload|;
    var preCrc := GeneratedHeader(apid, seqCount, payload, faults) + timestamp + payload;
    assert packet[..|packet| - 2] == preCrc;
    CrcIsRemainder(preCrc);
    assert w == Crc(preCrc);
    StoredBits(packet);
    BytesOfWord(SentCrc(w, faults));
    assert Bits(packet)[8 * (n + 14)..] == SentCrc(w, faults);
    forall i | 0 <= i < 16
      ensures Bits(packet)[8 * (n + 14) + i] == SentCrc(w, faults)[i]
    {
      assert Bits(packet)[8 * (n + 14)..][i] == Bits(packet)[8 * (n + 14) + i];
    }
  }
}
