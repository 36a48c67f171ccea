/** The 16-byte header in front of every packet and the checks on it. */
module Packet {
  import opened Bytes
  import Crc16

  const PE_MAGIC: u16 := 0x5045
  const PE_PROTOCOL_VERSION: u8 := 1
  const HEADER_SIZE := 16

  datatype Header = Header(
    magic: u16,
    version: u8,
    flags: u8,
    nodeId: u16,
    msgType: u16,
    seqNum: u32,
    payloadLen: u16,
    crc16: bv16)

  // ---------- layout ----------

  function LeHalf(w: bv16): (s: seq<byte>)
    ensures |s| == 2
  {
    [(w & 0xFF) as bv8, (w >> 8) as bv8]
  }

  function FromLeHalf(s: seq<byte>): bv16
    requires |s| == 2
  {
    (s[0] as bv16) | ((s[1] as bv16) << 8)
  }

  /** The packed structure as it travels. */
  function Encode(h: Header): (s: seq<byte>)
    ensures |s| == HEADER_SIZE
  {
    Le16(h.magic) + [ByteOf(h.version), ByteOf(h.flags)] + Le16(h.nodeId) + Le16(h.msgType)
    + Le32(h.seqNum) + Le16(h.payloadLen) + LeHalf(h.crc16)
  }

  function Decode(s: seq<byte>): Header
    requires |s| == HEADER_SIZE
  {
    Header(FromLe16(s[..2]), ValueOf(s[2]), ValueOf(s[3]), FromLe16(s[4..6]), FromLe16(s[6..8]),
           FromLe32(s[8..12]), FromLe16(s[12..14]), FromLeHalf(s[14..]))
  }

  lemma HalfRoundTrip(w: bv16)
    ensures FromLeHalf(LeHalf(w)) == w
  {}

  lemma ZeroHalf()
    ensures LeHalf(0) == [0, 0]
  {}

  lemma HalfRestored(s: seq<byte>)
    requires |s| == 2
    ensures LeHalf(FromLeHalf(s)) == s
  {
    assert s == [s[0], s[1]];
  }

  lemma ByteRestored(b: byte)
    ensures ByteOf(ValueOf(b)) == b
  {}

  lemma Le16Restored(s: seq<byte>)
    requires |s| == 2
    ensures Le16(FromLe16(s)) == s
  {
    hide ByteOf, ValueOf;
    ByteRestored(s[0]);
    ByteRestored(s[1]);
    assert FromLe16(s) % 256 == ValueOf(s[0]) && FromLe16(s) / 256 == ValueOf(s[1]);
    assert s == [s[0], s[1]];
  }

  lemma Le32Restored(s: seq<byte>)
    requires |s| == 4
    ensures Le32(FromLe32(s)) == s
  {
    hide Le16, FromLe16;
    Le16Restored(s[..2]);
    Le16Restored(s[2..]);
    var low, high := FromLe16(s[..2]), FromLe16(s[2..]);
    assert FromLe32(s) % 0x1_0000 == low && FromLe32(s) / 0x1_0000 == high;
    assert s == s[..2] + s[2..];
  }

  /** Every header is read back as it was written. */
  lemma HeaderRoundTrip(h: Header)
    ensures Decode(Encode(h)) == h
  {
    hide Le16, FromLe16, Le32, FromLe32, ByteOf, ValueOf, LeHalf, FromLeHalf;
    Le16RoundTrip(h.magic);
    ByteRoundTrip(h.version);
    ByteRoundTrip(h.flags);
    Le16RoundTrip(h.nodeId);
    Le16RoundTrip(h.msgType);
    Le32RoundTrip(h.seqNum);
    Le16RoundTrip(h.payloadLen);
    HalfRoundTrip(h.crc16);
    var s := Encode(h);
    assert s[..2] == Le16(h.magic) && s[4..6] == Le16(h.nodeId) && s[6..8] == Le16(h.msgType);
    assert s[8..12] == Le32(h.seqNum) && s[12..14] == Le16(h.payloadLen) && s[14..] == LeHalf(h.crc16);
  }

  /** Every 16 bytes are a header's layout: no two byte strings read as the same header. */
  lemma HeaderRestored(s: seq<byte>)
    requires |s| == HEADER_SIZE
    ensures Encode(Decode(s)) == s
  {
    hide Le16, FromLe16, Le32, FromLe32, ByteOf, ValueOf, LeHalf, FromLeHalf;
    Le16Restored(s[..2]);
    ByteRestored(s[2]);
    ByteRestored(s[3]);
    Le16Restored(s[4..6]);
    Le16Restored(s[6..8]);
    Le32Restored(s[8..12]);
    Le16Restored(s[12..14]);
    HalfRestored(s[14..]);
    assert s == s[..2] + [s[2], s[3]] + s[4..6] + s[6..8] + s[8..12] + s[12..14] + s[14..];
  }

  /** Checksum words lie low byte first, too. */
  lemma WordsLieLowFirst()
    ensures LeWord(0x1234_5678) == [0x78, 0x56, 0x34, 0x12] && LeHalf(0x1234) == [0x34, 0x12]
  {}

  /** The sixteen bytes of a header: magic, version, flags, node, type, sequence number, length, checksum. */
  lemma HeaderLayout(s: seq<byte>)
    requires |s| == 16
    ensures var h := Decode(s);
            && h.magic == At16(s, 0) && h.version == s[2] as int && h.flags == s[3] as int
            && h.nodeId == At16(s, 4) && h.msgType == At16(s, 6) && h.seqNum == At32(s, 8)
            && h.payloadLen == At16(s, 12) && LeHalf(h.crc16) == s[14..16]
  {
    hide FromLe16, FromLe32, At16, At32, LeHalf, FromLeHalf;
    NumbersRead(s, 0);
    NumbersRead(s, 4);
    NumbersRead(s, 6);
    NumbersRead(s, 8);
    NumbersRead(s, 12);
    HalfRestored(s[14..]);
  }

  // ---------- filling in and checking ----------

  /** The header of a packet; the checksum stays 0 unless asked for and there is a payload. */
  function Populated(nodeId: u16, msgType: u16, seqNum: u32, payload: seq<byte>, flags: u8, computeCrc: bool): Header
    requires |payload| < 0x1_0000
  {
    Header(PE_MAGIC, PE_PROTOCOL_VERSION, flags, nodeId, msgType, seqNum, |payload|,
           if computeCrc && |payload| > 0 then Crc16.Checksum(payload) else 0)
  }

  /** Which is: "EP", version 1, the fields given, the payload's length, and no checksum when none was asked for or
      there is nothing to check. */
  lemma PopulatedFields(nodeId: u16, msgType: u16, seqNum: u32, payload: seq<byte>, flags: u8, computeCrc: bool)
    requires |payload| < 0x1_0000
    ensures var h := Populated(nodeId, msgType, seqNum, payload, flags, computeCrc);
            && h.magic == 0x5045 && h.version == 1 && h.flags == flags && h.nodeId == nodeId && h.msgType == msgType
            && h.seqNum == seqNum && h.payloadLen == |payload|
            && h.crc16 == if payload == [] || !computeCrc then 0 else Crc16.Checksum(payload)
  {
    hide Crc16.Checksum;
  }

  datatype Verdict = Accepted | InvalidPayload | InvalidMagic | InvalidVersion

  function ValidateHeader(h: Header, receivedBytes: nat): Verdict {
    if receivedBytes < HEADER_SIZE then InvalidPayload
    else if h.magic != PE_MAGIC then InvalidMagic
    else if h.version != PE_PROTOCOL_VERSION then InvalidVersion
    else if receivedBytes < HEADER_SIZE + h.payloadLen then InvalidPayload
    else Accepted
  }

  /** A header is accepted exactly when it begins with "EP" and protocol version 1 and all the bytes it announces have
      come; a wrong magic is reported before a wrong version, and a packet too short for a header before both. */
  lemma HeaderAccepted(s: seq<byte>, received: nat)
    requires |s| == 16
    ensures var verdict, ep := ValidateHeader(Decode(s), received), s[0] == 0x45 && s[1] == 0x50;
            && (verdict == Accepted <==> ep && s[2] == 1 && received >= 16 + At16(s, 12))
            && (verdict == InvalidMagic <==> received >= 16 && !ep)
            && (verdict == InvalidVersion <==> received >= 16 && ep && s[2] != 1)
  {
    hide FromLe16, FromLe32, FromLeHalf, Decode;
    HeaderLayout(s);
    MagicBytes(s);
  }

  lemma MagicBytes(s: seq<byte>)
    requires |s| >= 3
    ensures At16(s, 0) == 0x5045 <==> s[0] == 0x45 && s[1] == 0x50
    ensures s[2] as int == 1 <==> s[2] == 1
  {}

  /** A zero checksum field means: not checked. */
  predicate ValidatePayloadCrc(h: Header, payload: seq<byte>)
    requires |payload| == h.payloadLen
  {
    h.crc16 == 0 || h.payloadLen == 0 || Crc16.Checksum(payload) == h.crc16
  }

  /** Nothing to check passes whatever the header says; a payload that differs only within two
      consecutive ones from a payload passing a non-zero checksum does not pass. */
  lemma PayloadChecked(h: Header, payload: seq<byte>, damaged: seq<byte>, k: nat)
    requires |payload| == h.payloadLen && DifferOnlyWithin(payload, damaged, k, 2) && payload != damaged
    requires h.crc16 != 0 && ValidatePayloadCrc(h, payload)
    ensures ValidatePayloadCrc(h.(payloadLen := 0), [])
    ensures !ValidatePayloadCrc(h, damaged)
  {
    hide Crc16.Checksum;
    if Crc16.Checksum(payload) == Crc16.Checksum(damaged) {
      Crc16.BurstDetected(payload, damaged, k);
      assert false;
    }
  }

  /** A packet passes both checks after the trip, and with trailing bytes too; it fails when cut short. */
  lemma PopulatedIsValid(nodeId: u16, msgType: u16, seqNum: u32, payload: seq<byte>, flags: u8, computeCrc: bool,
                         received: nat)
    requires |payload| < 0x1_0000
    ensures var h := Decode(Encode(Populated(nodeId, msgType, seqNum, payload, flags, computeCrc)));
            && (ValidateHeader(h, received) == Accepted <==> received >= HEADER_SIZE + |payload|)
            && h.payloadLen == |payload| && ValidatePayloadCrc(h, payload)
  {
    hide Encode, Decode, Crc16.Checksum;
    HeaderRoundTrip(Populated(nodeId, msgType, seqNum, payload, flags, computeCrc));
  }

  /** Damage within two consecutive bytes is noticed exactly when a checksum was computed and is not zero. */
  lemma DamagedPayloadNoticed(nodeId: u16, msgType: u16, seqNum: u32, payload: seq<byte>, damaged: seq<byte>,
                              flags: u8, computeCrc: bool, k: nat)
    requires |payload| < 0x1_0000 && DifferOnlyWithin(payload, damaged, k, 2) && payload != damaged
    ensures var h := Populated(nodeId, msgType, seqNum, payload, flags, computeCrc);
            !ValidatePayloadCrc(h, damaged) <==> computeCrc && Crc16.Checksum(payload) != 0
  {
    hide Crc16.Checksum;
    if Crc16.Checksum(payload) == Crc16.Checksum(damaged) {
      Crc16.BurstDetected(payload, damaged, k);
      assert false;
    }
  }

  /** The exception is not empty: payloads of every length from two bytes on have checksum zero, and for them a header
      with the checksum asked for accepts any payload of that length. */
  lemma UncheckedPayload(nodeId: u16, msgType: u16, seqNum: u32, zeros: nat, damaged: seq<byte>, flags: u8)
    requires zeros + 2 < 0x1_0000 && |damaged| == zeros + 2
    ensures ValidatePayloadCrc(Populated(nodeId, msgType, seqNum, Crc16.Unchecked(zeros), flags, true), damaged)
  {
    hide Crc16.Checksum, Crc16.Unchecked;
    Crc16.UncheckedIsZero(zeros);
  }
}
