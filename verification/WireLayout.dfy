/** The requests on the wire, byte by byte: the packets a connection takes and refuses, and what lies where inside
    them. */
module WireLayout {
  import opened Bytes
  import opened Packet
  import opened CommandStream
  import opened OtaTypes
  import opened OtaSession
  import opened OtaWire
  import CliLine

  // ---------- what a connection takes ----------

  datatype Step =
    | Needs(bytes: nat)
    | Refuses(ending: Ending)
    | Takes(msgType: u16, payload: seq<byte>)

  /** The front of a byte stream: a packet needs its 16 header bytes, must begin with "EP", announce at most 2048 bytes,
      and then needs those. The version is not looked at. */
  function Reading(flat: seq<byte>): Step {
    if |flat| < 16 then Needs(16)
    else if flat[0] != 0x45 || flat[1] != 0x50 then Refuses(InvalidMagicNack(At16(flat, 6)))
    else if At16(flat, 12) > 2048 then Refuses(InvalidPayloadNack(At16(flat, 6)))
    else if |flat| < 16 + At16(flat, 12) then Needs(16 + At16(flat, 12))
    else Takes(At16(flat, 6), flat[16..16 + At16(flat, 12)])
  }

  lemma FrontOfStream(flat: seq<byte>)
    ensures var front, r := Front(flat), Reading(flat);
            && (r.Needs? <==> front == Stop(OutOfInput))
            && (r.Refuses? ==> front == Stop(r.ending))
            && (r.Takes? <==> front.Next?)
            && (r.Takes? ==> front.frame.header.msgType == r.msgType && front.frame.payload == r.payload)
  {
    hide FromLe16, FromLe32, FromLeHalf, Decode;
    if |flat| >= 16 {
      var s := flat[..16];
      HeaderLayout(s);
      MagicBytes(s);
      assert At16(s, 0) == At16(flat, 0) && At16(s, 6) == At16(flat, 6) && At16(s, 12) == At16(flat, 12);
    }
  }

  /** A whole connection, packet by packet: it goes on behind a packet exactly when that is OTA data (0x0132). */
  lemma ConnectionReads(flat: seq<byte>)
    ensures match Reading(flat)
            case Needs(_) => Parse(flat) == Dispatch([], OutOfInput)
            case Refuses(ending) => Parse(flat) == Dispatch([], ending)
            case Takes(msgType, payload) =>
              var d, rest := Parse(flat), Parse(flat[16 + |payload|..]);
              && d.frames != [] && d.frames[0].header.msgType == msgType && d.frames[0].payload == payload
              && (if msgType == 0x0132 then d.frames[1..] == rest.frames && d.ending == rest.ending
                  else d.frames[1..] == [] && d.ending == Served)
  {
    hide Front;
    FrontOfStream(flat);
    if Front(flat).Next? {
      var f := Front(flat).frame;
      FrontShape(flat);
      var rest := Parse(flat[16 + |f.payload|..]).frames;
      assert [f][1..] == [] && ([f] + rest)[1..] == rest;
    }
  }

  // ---------- requests ----------

  /** The 16 bytes of a begin request, in a packet of type 0x0130: size, checksum, version, chunk size, flags. The chunk
      size is not looked at; a shorter payload is refused. */
  lemma BeginOnWire(f: Frame, buffer: PayloadBuffer, ctrl: Controller)
    requires f.header.msgType == 0x0130 && |f.payload| <= 2048
    ensures var p, c := f.payload, CommandOf(f, buffer, ctrl);
            if |p| < 16 then c == TooShort
            else
              && c.Handler? && c.event.Begin? && c.event.ctrl == ctrl
              && c.event.begin.imageSize == At32(p, 0) && LeWord(c.event.begin.imageCrc32) == p[4..8]
              && c.event.begin.targetVersion == At32(p, 8) && c.event.begin.flags == At16(p, 14)
  {
    hide FromLe16, FromLe32, FromLeWord, LeWord, At16, At32;
    var p, b := f.payload, Loaded(buffer, f.payload);
    if |p| >= 16 {
      NumbersRead(p, 0);
      NumbersRead(p, 8);
      NumbersRead(p, 14);
      WordRestored(p[4..8]);
      assert b[0..4] == p[0..4] && b[4..8] == p[4..8] && b[8..12] == p[8..12] && b[14..16] == p[14..16];
    }
  }

  lemma WordRestored(w: seq<byte>)
    requires |w| == 4
    ensures LeWord(FromLeWord(w)) == w
  {
    assert w == [w[0], w[1], w[2], w[3]];
  }

  /** A data request, in a packet of type 0x0132: offset, length and checksum in eight bytes, then the chunk. What the
      packet is short of comes from the payload buffer, where earlier packets have left it. */
  lemma DataOnWire(f: Frame, buffer: PayloadBuffer, ctrl: Controller)
    requires f.header.msgType == 0x0132 && |f.payload| <= 2048
    ensures var p, c := f.payload, CommandOf(f, buffer, ctrl);
            if |p| < 8 then c == TooShort
            else if At16(p, 4) > 2040 then c == Overlong(At32(p, 0), At16(p, 4))
            else
              && c.Handler? && c.event.Data? && c.event.ctrl == ctrl
              && c.event.data.offset == At32(p, 0) && LeHalf(c.event.data.chunkCrc16) == p[6..8]
              && c.event.data.chunk == (p + buffer[|p|..])[8..8 + At16(p, 4)]
  {
    hide FromLe16, FromLe32, FromLeHalf, LeHalf, At16, At32;
    var p, b := f.payload, Loaded(buffer, f.payload);
    if |p| >= 8 {
      NumbersRead(p, 0);
      NumbersRead(p, 4);
      HalfRestored(p[6..8]);
      assert b[0..4] == p[0..4] && b[4..6] == p[4..6] && b[6..8] == p[6..8];
    }
  }

  /** So a packet that brings the whole chunk is taken at its word, whatever the buffer holds. */
  lemma WholeChunkOnWire(f: Frame, buffer: PayloadBuffer, ctrl: Controller)
    requires f.header.msgType == 0x0132 && 8 <= |f.payload| <= 2048 && |f.payload| >= 8 + At16(f.payload, 4)
    ensures var c := CommandOf(f, buffer, ctrl);
            c.Handler? && c.event.Data? && c.event.data.chunk == f.payload[8..8 + At16(f.payload, 4)]
  {
    hide At16, CommandOf;
    DataOnWire(f, buffer, ctrl);
    var p := f.payload;
    assert (p + buffer[|p|..])[8..8 + At16(p, 4)] == p[8..8 + At16(p, 4)];
  }

  /** Node query, start and stop of streams, stream list, OTA status and reboot. */
  const OTHERS: set<u16> := {0x0100, 0x0110, 0x0111, 0x0120, 0x0136, 0x01F0}

  /** The end request, the abort request, and everything that is neither an OTA request nor a command line. Of the end
      request only the reboot flag in byte 4 is looked at, of an abort request nothing. */
  lemma OtherRequestsOnWire(f: Frame, buffer: PayloadBuffer, ctrl: Controller)
    requires |f.payload| <= 2048
    ensures var p, c, t := f.payload, CommandOf(f, buffer, ctrl), f.header.msgType;
            && (t == 0x0134 ==> c == if |p| < 8 then TooShort else Handler(End(p[4] != 0)))
            && (t == 0x0138 ==> c == Handler(Abort))
            && (t in OTHERS ==> c == NotOta)
            && (t !in OTHERS && t !in {0x0130, 0x0132, 0x0134, 0x0138, 0x0150} ==> c == Unknown)
  {
    hide FromLe16, FromLe32, FromLeHalf, CliLine.AbortsOta, CliText;
  }

  /** A command line (0x0150) acts on the session exactly when its text orders the abort: as long as its first two bytes
      announce and at most 127 bytes, whatever the packet brings and from there on what the payload buffer holds. A
      packet too short for the announcement orders nothing. */
  lemma CommandLineOnWire(f: Frame, buffer: PayloadBuffer, ctrl: Controller)
    requires f.header.msgType == 0x0150 && |f.payload| <= 2048
    ensures var p, c := f.payload, CommandOf(f, buffer, ctrl);
            if |p| < 4 then c == NotOta
            else
              var n := if At16(p, 0) <= 127 then At16(p, 0) else 127;
              c == if CliLine.AbortsOta((p + buffer[|p|..])[4..4 + n]) then Handler(Abort) else NotOta
  {
    hide FromLe16, At16, CliLine.AbortsOta;
    var p, b := f.payload, Loaded(buffer, f.payload);
    if |p| >= 4 {
      NumbersRead(p, 0);
      assert b[0..2] == p[0..2];
    } else {
      assert b[..|p|] == p;
      CliLine.ShortLine(p);
    }
  }

  // ---------- the answers in front of the handlers ----------

  /** Packets too short for their request and commands nobody knows leave the session as it was and are answered with
      the error for that; other commands are none of its business. */
  lemma SetAside(s: Session, address: u32, ctrl: Controller, buffer: PayloadBuffer, f: Frame)
    requires Consistent(s, address) && |f.payload| <= 2048
    ensures var x, t, n := ServeFrame(s, address, ctrl, buffer, f), f.header.msgType, |f.payload|;
            && (t == 0x0130 && n < 16 ==> x == Exchange(s, [ERR_INVALID_PAYLOAD]))
            && (t in {0x0132, 0x0134} && n < 8 ==> x == Exchange(s, [ERR_INVALID_PAYLOAD]))
            && (t in OTHERS ==> x == Exchange(s, [OK]))
            && (t !in OTHERS && t !in {0x0130, 0x0132, 0x0134, 0x0138, 0x0150}
                ==> x == Exchange(s, [ERR_UNKNOWN_CMD]))
  {
    hide CommandOf, Consistent, Respond, StepDefined;
    OtherRequestsOnWire(f, buffer, ctrl);
    if f.header.msgType == 0x0130 { BeginOnWire(f, buffer, ctrl); }
    if f.header.msgType == 0x0132 { DataOnWire(f, buffer, ctrl); }
  }

  /** An abort packet ends whatever was going on. */
  lemma AbortOnWire(s: Session, address: u32, ctrl: Controller, buffer: PayloadBuffer, f: Frame)
    requires Consistent(s, address) && f.header.msgType == 0x0138 && |f.payload| <= 2048
    ensures var x := ServeFrame(s, address, ctrl, buffer, f);
            && x.Exchange? && x.replies == [OK] && x.session.state == IDLE && x.session.bytesWritten == 0
            && !x.session.rebootPending && x.session.lastError == OK
            && x.session.block == s.block && x.session.staging == s.staging
  {
    hide CommandOf, Consistent;
    OtherRequestsOnWire(f, buffer, ctrl);
  }

  /** A chunk announced past the end of the payload buffer is refused outside a transfer and when it ends behind the
      image, in 32 bits; otherwise nobody can tell what is stored. */
  lemma OverlongOnWire(s: Session, address: u32, ctrl: Controller, buffer: PayloadBuffer, f: Frame)
    requires Consistent(s, address) && f.header.msgType == 0x0132 && 8 <= |f.payload| <= 2048
    requires At16(f.payload, 4) > 2040
    ensures var x, end := ServeFrame(s, address, ctrl, buffer, f), At32(f.payload, 0) + At16(f.payload, 4);
            if s.state != RECEIVING then x == Exchange(s, [ERR_BUSY])
            else if end % 0x1_0000_0000 > s.totalImageSize then
              x == Exchange(s.(lastError := ERR_INVALID_PAYLOAD), [ERR_INVALID_PAYLOAD])
            else x == Undefined
  {
    hide CommandOf, Consistent, At16, At32;
    DataOnWire(f, buffer, ctrl);
  }

  // ---------- what the host sends ----------

  /** The host's packets: "EP", version 1, no flags, node 0, and no checksum in the header. */
  lemma HostHeaderOnWire(msgType: u16, seqNum: u32, payload: seq<byte>)
    requires |payload| <= 2048
    ensures var s := Sent(HostFrame(msgType, seqNum, payload));
            && |s| == 16 + |payload| && s[0] == 0x45 && s[1] == 0x50 && s[2] == 1 && s[3] == s[4] == s[5] == 0
            && At16(s, 6) == msgType && At32(s, 8) == seqNum && At16(s, 12) == |payload| && s[14] == s[15] == 0
            && s[16..] == payload
  {
    hide Encode, Decode, FromLe16, At16, At32, LeHalf;
    var h := HostFrame(msgType, seqNum, payload).header;
    var s, e := Sent(HostFrame(msgType, seqNum, payload)), Encode(h);
    HeaderRoundTrip(h);
    HeaderLayout(e);
    PlainBytes(e);
    SameNumbers(e, s);
    ZeroHalf();
    assert s[..16] == e && e[14] == e[14..16][0] && e[15] == e[14..16][1];
  }

  lemma PlainBytes(e: seq<byte>)
    requires |e| == 16
    ensures At16(e, 0) == 0x5045 ==> e[0] == 0x45 && e[1] == 0x50
    ensures At16(e, 4) == 0 ==> e[4] == 0 && e[5] == 0
    ensures (e[2] as int == 1 ==> e[2] == 1) && (e[3] as int == 0 ==> e[3] == 0)
  {}

  lemma SameNumbers(e: seq<byte>, s: seq<byte>)
    requires |e| == 16 <= |s| && s[..16] == e
    ensures At16(s, 6) == At16(e, 6) && At32(s, 8) == At32(e, 8) && At16(s, 12) == At16(e, 12)
  {
    assert forall i :: 0 <= i < 16 ==> s[i] == s[..16][i];
  }

  /** The payloads of the host's four kinds of packets. */
  lemma BeginPayloadBytes(req: BeginRequest)
    ensures var p := BeginPayload(req);
            && At32(p, 0) == req.imageSize && p[4..8] == LeWord(req.imageCrc32) && At32(p, 8) == req.targetVersion
            && At16(p, 12) == 1024 && At16(p, 14) == req.flags
  {
    hide Le32, FromLe32, LeWord, Le16, FromLe16, At16, At32;
    var p := BeginPayload(req);
    Le32RoundTrip(req.imageSize);
    Le32RoundTrip(req.targetVersion);
    Le16RoundTrip(1024);
    Le16RoundTrip(req.flags);
    NumbersRead(p, 0);
    NumbersRead(p, 8);
    NumbersRead(p, 12);
    NumbersRead(p, 14);
    assert p[0..4] == Le32(req.imageSize) && p[8..12] == Le32(req.targetVersion);
    assert p[12..14] == Le16(1024) && p[14..16] == Le16(req.flags);
  }

  lemma DataPayloadBytes(req: DataRequest)
    requires req.WellFormed()
    ensures var p := DataPayload(req);
            && At32(p, 0) == req.offset && At16(p, 4) == |req.chunk| && p[6..8] == LeHalf(req.chunkCrc16)
            && p[8..] == req.chunk
  {
    hide Le32, FromLe32, Le16, FromLe16, LeHalf, At16, At32;
    var p := DataPayload(req);
    Le32RoundTrip(req.offset);
    Le16RoundTrip(|req.chunk|);
    NumbersRead(p, 0);
    NumbersRead(p, 4);
    assert p[0..4] == Le32(req.offset) && p[4..6] == Le16(|req.chunk|);
  }

  lemma EndAndTextBytes(imageCrc32: bv32, autoReboot: bool, text: seq<byte>)
    requires |text| <= 127
    ensures EndPayload(imageCrc32, autoReboot) == LeWord(imageCrc32) + [if autoReboot then 1 else 0] + [0, 0, 0]
    ensures var p := CliPayload(text); At16(p, 0) == |text| && At16(p, 2) == 0 && p[4..] == text
  {
    hide Le16, FromLe16, LeWord, At16;
    var p := CliPayload(text);
    Le16RoundTrip(|text|);
    Le16RoundTrip(0);
    NumbersRead(p, 0);
    NumbersRead(p, 2);
    assert p[0..2] == Le16(|text|) && p[2..4] == Le16(0);
  }
}
