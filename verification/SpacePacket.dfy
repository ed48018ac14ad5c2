/** The primary header of section 4.1 of CCSDS 133.0-B-2: its two parsers, the packet rules, and
    the generator that encodes test packets. */
module SpacePacket {
  import opened Prelude
  import opened Bytes
  import opened BitStrings
  import opened Gf2
  import opened Crc16

  datatype PrimaryHeader = PrimaryHeader(
    version: byte, packetType: byte, secHdrFlag: bool, apid: u16,
    seqFlags: byte, seqCount: u16, dataLength: u16)

  datatype DecoderError =
    | PacketTooShort(length: nat)
    | InvalidVersion(version: byte)
    | LengthMismatch(declared: nat, actual: nat)
    | CrcMismatch(expected: Word, computed: Word)

  // A header word, and where its fields lie in its two bytes.
  function HeaderWord(hi: byte, lo: byte): (w: u16)
    ensures w / 0x2000 == hi / 32 && w / 0x1000 == hi / 16 && w / 0x800 == hi / 8 && w / 0x4000 == hi / 64
    ensures w % 0x800 == hi % 8 * 256 + lo && w % 0x4000 == hi % 64 * 256 + lo
  {
    U16(hi, lo)
  }

  // `Parser::parse_primary_header`: fields cut out of three 16-bit words.
  function ParsePrimaryHeader(data: seq<byte>): Result<PrimaryHeader, DecoderError> {
    if |data| < 6 then Err(PacketTooShort(|data|))
    else
      var word0, word1 := HeaderWord(data[0], data[1]), HeaderWord(data[2], data[3]);
      Ok(PrimaryHeader(
           word0 / 0x2000 % 8, word0 / 0x1000 % 2, word0 / 0x800 % 2 != 0, word0 % 0x800,
           word1 / 0x4000 % 4, word1 % 0x4000,
           U16(data[4], data[5])))
  }

  // The header of `ReplayPacket::from_ccsds_frame`: fields cut out of single bytes.
  function ParseFrameHeader(data: seq<byte>): Option<PrimaryHeader> {
    if |data| < 6 then None
    else
      Some(PrimaryHeader(
             data[0] / 32 % 8, data[0] / 16 % 2, data[0] / 8 % 2 != 0, U16(data[0] % 8, data[1]),
             data[2] / 64 % 4, U16(data[2] % 64, data[3]),
             U16(data[4], data[5])))
  }

  lemma ParsersAgree(data: seq<byte>)
    ensures ParseFrameHeader(data).Some? <==> ParsePrimaryHeader(data).Ok?
    ensures ParseFrameHeader(data).Some? ==> ParseFrameHeader(data).value == ParsePrimaryHeader(data).value
  {}

  /* The rules of `Validator` */

  function ValidateVersion(header: PrimaryHeader): Result<Unit, DecoderError> {
    if header.version != 0 then Err(InvalidVersion(header.version)) else Ok(Unit)
  }

  function ValidateLength(data: seq<byte>, header: PrimaryHeader): Result<Unit, DecoderError> {
    var declared := header.dataLength + 1;
    var actual := if |data| >= 6 then |data| - 6 else 0;
    if declared != actual then Err(LengthMismatch(declared, actual)) else Ok(Unit)
  }

  function StoredCrc(data: seq<byte>): Word
    requires |data| >= 2
  {
    ByteBits(data[|data| - 2]) + ByteBits(data[|data| - 1])
  }

  function ValidateCrc(data: seq<byte>): Result<Unit, DecoderError> {
    if |data| < 3 then Err(PacketTooShort(|data|))
    else
      var computed := Crc(data[..|data| - 2]);
      if computed != StoredCrc(data) then Err(CrcMismatch(StoredCrc(data), computed)) else Ok(Unit)
  }

  function ValidateAll(data: seq<byte>, header: PrimaryHeader, checkCrc: bool): Result<Unit, DecoderError> {
    var version := ValidateVersion(header);
    if version.Err? then version
    else
      var length := ValidateLength(data, header);
      if length.Err? then length
      else if checkCrc then ValidateCrc(data)
      else Ok(Unit)
  }

  /* What the CRC rule accepts */

  // The packet polynomial with its 16 highest coefficients complemented.
  function Codeword(data: seq<byte>): (p: Poly)
    requires |data| >= 2
    ensures |p| == 8 * |data|
  {
    Add(Bits(data), Ones(16) + Zero(8 * |data| - 16))
  }

  lemma CodewordIsSum(data: seq<byte>)
    requires |data| >= 2
    ensures
      var body := Bits(data[..|data| - 2]);
      Codeword(data) == Add(Dividend(body), Zero(|body|) + StoredCrc(data))
  {
    assert data[..|data| - 1][..|data| - 2] == data[..|data| - 2];
    assert Bits(data) == Bits(data[..|data| - 2]) + StoredCrc(data);
  }

  lemma ValidIffMultiple(data: seq<byte>)
    requires |data| >= 3
    ensures ValidateCrc(data).Ok? <==> MultipleOfG(Codeword(data))
  {
    var body := data[..|data| - 2];
    CodewordIsSum(data);
    CrcIsRemainder(body);
    AppendedRemainderDecides(Dividend(Bits(body)), Crc(body), StoredCrc(data));
  }

  // Running the register over the stored CRC as well leaves it at zero exactly for valid packets.
  lemma ValidIffZeroResidue(data: seq<byte>)
    requires |data| >= 3
    ensures ValidateCrc(data).Ok? <==> Crc(data) == Zero(16)
  {
    ValidIffMultiple(data);
    CrcIsRemainder(data);
    DividendIsShiftedCodeword(data);
    ShiftedMultiple(Codeword(data));
    RemainderDecides(Dividend(Bits(data)), Crc(data));
  }

  lemma DividendIsShiftedCodeword(data: seq<byte>)
    requires |data| >= 2
    ensures Dividend(Bits(data)) == Codeword(data) + Zero(16)
  {}

  // What transmission did to a packet: the positions of its wrong bits.
  function ErrorPattern(sent: seq<byte>, received: seq<byte>): (e: Poly)
    requires |sent| == |received|
    ensures |e| == 8 * |sent|
  {
    Add(Bits(sent), Bits(received))
  }

  lemma AcceptedIffErrorIsMultiple(sent: seq<byte>, received: seq<byte>)
    requires |sent| == |received| && ValidateCrc(sent).Ok?
    ensures ValidateCrc(received).Ok? <==> MultipleOfG(ErrorPattern(sent, received))
  {
    var e := ErrorPattern(sent, received);
    ValidIffMultiple(sent);
    ValidIffMultiple(received);
    CodewordDifference(sent, received);
    SumOfMultiples(Codeword(sent), e);
  }

  lemma CodewordDifference(sent: seq<byte>, received: seq<byte>)
    requires |sent| == |received| >= 2
    ensures Codeword(received) == Add(Codeword(sent), ErrorPattern(sent, received))
  {}

  lemma BurstsAreRejected(sent: seq<byte>, received: seq<byte>)
    requires |sent| == |received| && ValidateCrc(sent).Ok?
    requires IsBurst16(ErrorPattern(sent, received))
    ensures ValidateCrc(received).Err?
  {
    AcceptedIffErrorIsMultiple(sent, received);
    BurstNotMultiple(ErrorPattern(sent, received));
  }

  lemma OddErrorsAreRejected(sent: seq<byte>, received: seq<byte>)
    requires |sent| == |received| && ValidateCrc(sent).Ok?
    requires CountOnes(ErrorPattern(sent, received)) % 2 == 1
    ensures ValidateCrc(received).Err?
  {
    AcceptedIffErrorIsMultiple(sent, received);
    OddNotMultiple(ErrorPattern(sent, received));
  }

  /* The generator of test packets */

  datatype Faults = Faults(corruptCrc: bool, malformedVersion: bool, missingSecHdr: bool, wrongLength: Option<int>)

  function WordToBytes(w: u16): (b: seq<byte>)
    ensures |b| == 2 && U16(b[0], b[1]) == w
  {
    [w / 256, w % 256]
  }

  // The first header word of fields that fit.
  function IdWord(version: nat, flag: nat, apid: nat): (w: u16)
    requires version < 8 && flag < 2 && apid < 0x800
    ensures w / 0x2000 % 8 == version && w / 0x1000 % 2 == 0 && w / 0x800 % 2 == flag && w % 0x800 == apid
  {
    version * 0x2000 + flag * 0x800 + apid
  }

  function SequenceWord(seqCount: nat): (w: u16)
    requires seqCount < 0x4000
    ensures w / 0x4000 % 4 == 3 && w % 0x4000 == seqCount
  {
    3 * 0x4000 + seqCount
  }

  // `make_ccsds_header`; the masks keep the low bits of arbitrary integers.
  function MakeHeader(apid: nat, seqCount: nat, dataLen: int, version: nat, hasSecHdr: bool): seq<byte> {
    WordToBytes(IdWord(version % 8, if hasSecHdr then 1 else 0, apid % 0x800))
    + WordToBytes(SequenceWord(seqCount % 0x4000)) + WordToBytes((dataLen - 1) % 0x1_0000)
  }

  // `generate_packet` over an arbitrary user payload; `timestamp` is the packed secondary header.
  function GeneratePacket(apid: nat, seqCount: nat, timestamp: seq<byte>, payload: seq<byte>, faults: Faults): seq<byte>
    requires |timestamp| == 8
  {
    var preCrc := GeneratedHeader(apid, seqCount, payload, faults) + timestamp + payload;
    var crc := SentCrc(Crc(preCrc), faults);
    preCrc + [ByteOf(crc[..8]), ByteOf(crc[8..])]
  }

  // The length a generated packet announces; by default that of its timestamp, payload and CRC.
  function Declared(payload: seq<byte>, faults: Faults): int {
    if faults.wrongLength.None? then 8 + |payload| + 2 else faults.wrongLength.value
  }

  function GeneratedHeader(apid: nat, seqCount: nat, payload: seq<byte>, faults: Faults): (h: seq<byte>)
    ensures |h| == 6
  {
    MakeHeader(
      apid, seqCount, Declared(payload, faults), if faults.malformedVersion then 1 else 0, !faults.missingSecHdr)
  }

  function SentCrc(crc: Word, faults: Faults): Word {
    if faults.corruptCrc then Add(crc, Ones(16)) else crc
  }

  lemma HeaderRoundTrip(apid: nat, seqCount: nat, dataLen: int, version: nat, hasSecHdr: bool, rest: seq<byte>)
    ensures ParsePrimaryHeader(MakeHeader(apid, seqCount, dataLen, version, hasSecHdr) + rest) ==
      Ok(PrimaryHeader(version % 8, 0, hasSecHdr, apid % 0x800, 3, seqCount % 0x4000, (dataLen - 1) % 0x1_0000))
  {}

  // The header of a generated packet, as the decoder reads it.
  function SentHeader(apid: nat, seqCount: nat, payload: seq<byte>, faults: Faults): PrimaryHeader {
    PrimaryHeader(
      if faults.malformedVersion then 1 else 0, 0, !faults.missingSecHdr, apid % 0x800,
      3, seqCount % 0x4000,
      (if faults.wrongLength.Some? then faults.wrongLength.value - 1 else |payload| + 9) % 0x1_0000)
  }

  // Which generated packets the decoder accepts: those without a fault that a rule looks at.
  lemma GeneratedAcceptedIff(apid: nat, seqCount: nat, timestamp: seq<byte>, payload: seq<byte>, faults: Faults)
    requires |timestamp| == 8
    ensures
      var packet := GeneratePacket(apid, seqCount, timestamp, payload, faults);
      var header := ParsePrimaryHeader(packet);
      && header == Ok(SentHeader(apid, seqCount, payload, faults))
      && (ValidateAll(packet, header.value, true).Ok? <==>
          && !faults.corruptCrc && !faults.malformedVersion && |payload| < 65527
          && (faults.wrongLength.Some? ==> (faults.wrongLength.value - |payload| - 10) % 65536 == 0))
  {
    hide ParsePrimaryHeader, MakeHeader, ValidateCrc, Crc;
    GeneratedParses(apid, seqCount, timestamp, payload, faults);
    var preCrc := GeneratedHeader(apid, seqCount, payload, faults) + timestamp + payload;
    AppendedWordDecides(preCrc, SentCrc(Crc(preCrc), faults));
    SentCrcDiffers(Crc(preCrc), faults);
  }

  lemma GeneratedParses(apid: nat, seqCount: nat, timestamp: seq<byte>, payload: seq<byte>, faults: Faults)
    requires |timestamp| == 8
    ensures
      var packet := GeneratePacket(apid, seqCount, timestamp, payload, faults);
      |packet| == |payload| + 16 && ParsePrimaryHeader(packet) == Ok(SentHeader(apid, seqCount, payload, faults))
  {
    hide ParsePrimaryHeader, MakeHeader, Crc;
    var packet := GeneratePacket(apid, seqCount, timestamp, payload, faults);
    var header := GeneratedHeader(apid, seqCount, payload, faults);
    assert packet == header + packet[6..];
    HeaderRoundTrip(
      apid, seqCount, Declared(payload, faults), if faults.malformedVersion then 1 else 0, !faults.missingSecHdr,
      packet[6..]);
  }

  lemma SentCrcDiffers(crc: Word, faults: Faults)
    ensures SentCrc(crc, faults) == crc <==> !faults.corruptCrc
  {
    if faults.corruptCrc {
      assert SentCrc(crc, faults)[0] != crc[0];
    }
  }

  lemma AppendedWordDecides(body: seq<byte>, w: Word)
    requires |body| > 0
    ensures ValidateCrc(body + [ByteOf(w[..8]), ByteOf(w[8..])]).Ok? <==> Crc(body) == w
  {
    AppendedBytesDecide(body, ByteOf(w[..8]), ByteOf(w[8..]));
    BytesOfWord(w);
  }

  lemma AppendedBytesDecide(body: seq<byte>, hi: byte, lo: byte)
    requires |body| > 0
    ensures ValidateCrc(body + [hi, lo]).Ok? <==> Crc(body) == ByteBits(hi) + ByteBits(lo)
  {
    assert (body + [hi, lo])[..|body|] == body;
  }

  lemma BytesOfWord(w: Word)
    ensures ByteBits(ByteOf(w[..8])) + ByteBits(ByteOf(w[8..])) == w
  {
    ByteOfBits(w[..8]);
    ByteOfBits(w[8..]);
    assert w[..8] + w[8..] == w;
  }
}
