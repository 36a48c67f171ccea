/** The update over the command connections: the host's packets, the firmware's dispatch of them to the OTA handlers,
    and what becomes of an update on three connections and on one. */
module OtaWire {
  import opened Bytes
  import Crc32
  import opened Packet
  import opened CommandStream
  import opened OtaTypes
  import opened OtaSession
  import opened OtaTransfer
  import CliLine

  const CMD_OTA_BEGIN: u16 := 0x0130
  const CMD_OTA_END: u16 := 0x0134
  const CMD_OTA_ABORT: u16 := 0x0138
  const CMD_CLI_EXEC: u16 := 0x0150
  const CLI_LINE_LIMIT := 127

  // ---------- the host's packets ----------

  function HostFrame(msgType: u16, seqNum: u32, payload: seq<byte>): (f: Frame)
    requires |payload| <= PAYLOAD_BUFFER_SIZE
    ensures Sendable(f) && f.header.msgType == msgType && f.payload == payload
  {
    Frame(Header(PE_MAGIC, PE_PROTOCOL_VERSION, 0, 0, msgType, seqNum, |payload|, 0), payload)
  }

  function BeginPayload(req: BeginRequest): (s: seq<byte>)
    ensures |s| == 16
  {
    Le32(req.imageSize) + LeWord(req.imageCrc32) + Le32(req.targetVersion) + Le16(CHUNK_SIZE_ACK) + Le16(req.flags)
  }

  function DataPayload(req: DataRequest): (s: seq<byte>)
    requires req.WellFormed()
    ensures |s| == 8 + |req.chunk|
  {
    Le32(req.offset) + Le16(|req.chunk|) + LeHalf(req.chunkCrc16) + req.chunk
  }

  function EndPayload(imageCrc32: bv32, autoReboot: bool): (s: seq<byte>)
    ensures |s| == 8
  {
    LeWord(imageCrc32) + [if autoReboot then 1 else 0, 0, 0, 0]
  }

  function CliPayload(text: seq<byte>): (s: seq<byte>)
    requires |text| <= CLI_LINE_LIMIT
    ensures |s| == 4 + |text|
  {
    Le16(|text|) + Le16(0) + text
  }

  function BeginFrame(req: BeginRequest, seqNum: u32): (f: Frame)
    ensures Sendable(f) && f.header.msgType == CMD_OTA_BEGIN
  {
    HostFrame(CMD_OTA_BEGIN, seqNum, BeginPayload(req))
  }

  function DataFrame(req: DataRequest, seqNum: u32): (f: Frame)
    requires |req.chunk| <= CHUNK_SIZE_ACK
    ensures Sendable(f) && f.header.msgType == CMD_OTA_DATA
  {
    HostFrame(CMD_OTA_DATA, seqNum, DataPayload(req))
  }

  function EndFrame(imageCrc32: bv32, autoReboot: bool, seqNum: u32): (f: Frame)
    ensures Sendable(f) && f.header.msgType == CMD_OTA_END
  {
    HostFrame(CMD_OTA_END, seqNum, EndPayload(imageCrc32, autoReboot))
  }

  // ---------- the firmware's dispatch ----------

  /** The server's one payload buffer. It outlives packets and connections. */
  type PayloadBuffer = b: seq<byte> | |b| == PAYLOAD_BUFFER_SIZE witness seq(PAYLOAD_BUFFER_SIZE, _ => 0)

  /** A payload read into it covers the front; behind it lies what earlier packets left. */
  function Loaded(buffer: PayloadBuffer, payload: seq<byte>): PayloadBuffer {
    if |payload| <= PAYLOAD_BUFFER_SIZE then payload + buffer[|payload|..] else payload[..PAYLOAD_BUFFER_SIZE]
  }

  /** What a packet asks of the OTA service. A data packet may announce more bytes than it brings: the rest is taken
      from the buffer, and from behind it when it is longer still. */
  datatype Command =
    | Handler(event: Event)
    | TooShort
    | Overlong(offset: u32, length: u16)
    | NotOta
    | Unknown

  /** Node query, start and stop of streams, stream list, OTA status, command line, reboot. */
  predicate KnownCommand(msgType: u16) {
    msgType in {0x0100, 0x0110, 0x0111, 0x0120, 0x0136, 0x0150, 0x01F0}
  }

  function CommandOf(f: Frame, buffer: PayloadBuffer, ctrl: Controller): Command {
    var b, n := Loaded(buffer, f.payload), |f.payload|;
    if f.header.msgType == CMD_OTA_BEGIN then
      if n < 16 then TooShort
      else
        Handler(Begin(ctrl, BeginRequest(FromLe32(b[0..4]), FromLeWord(b[4..8]), FromLe32(b[8..12]),
                                         FromLe16(b[14..16]))))
    else if f.header.msgType == CMD_OTA_DATA then
      if n < 8 then TooShort else DataCommand(b, ctrl)
    else if f.header.msgType == CMD_OTA_END then
      if n < 8 then TooShort else Handler(End(b[4] != 0))
    else if f.header.msgType == CMD_OTA_ABORT then Handler(Abort)
    else if f.header.msgType == CMD_CLI_EXEC && CliLine.AbortsOta(CliText(b, n)) then Handler(Abort)
    else if KnownCommand(f.header.msgType) then NotOta
    else Unknown
  }

  function DataCommand(b: PayloadBuffer, ctrl: Controller): Command {
    var offset, length := FromLe32(b[0..4]), FromLe16(b[4..6]);
    if 8 + length > PAYLOAD_BUFFER_SIZE then Overlong(offset, length)
    else Handler(Data(ctrl, DataRequest(offset, FromLeHalf(b[6..8]), b[8..8 + length])))
  }

  /** The text of a command-line packet: as long as announced, at most 127 bytes, out of the buffer; a packet without
      room for the announcement is text as a whole. */
  function CliText(b: PayloadBuffer, n: nat): seq<byte> {
    if n < 4 then b[..n]
    else
      var length := FromLe16(b[0..2]);
      b[4..4 + if length > CLI_LINE_LIMIT then CLI_LINE_LIMIT else length]
  }

  /** A handler's effect and answer. */
  function Respond(s: Session, address: u32, e: Event): (o: Outcome)
    requires Consistent(s, address) && StepDefined(s, e)
    ensures o.session == Step(s, address, e)
  {
    match e
    case Begin(ctrl, req) => AfterBegin(s, ctrl, req)
    case Data(ctrl, req) => AfterData(s, ctrl, req)
    case End(autoReboot) => AfterEnd(s, address, autoReboot)
    case Abort => Outcome(AfterAbort(s), OK)
  }

  /** Session and answers after some packets, or bytes nobody can tell. */
  datatype Exchange = Exchange(session: Session, replies: seq<StatusCode>) | Undefined

  ghost predicate Sane(x: Exchange, address: u32) {
    x.Exchange? ==> Consistent(x.session, address)
  }

  /** A chunk that runs past the buffer is refused before it is looked at when no transfer is on or the image is too
      small for it; otherwise nobody can tell what is read. */
  ghost function ServeOverlong(s: Session, offset: u32, length: u16): Exchange {
    if s.state != RECEIVING then Exchange(s, [ERR_BUSY])
    else if Wrap32(offset + length) > s.totalImageSize then
      Exchange(s.(lastError := ERR_INVALID_PAYLOAD), [ERR_INVALID_PAYLOAD])
    else Undefined
  }

  lemma OverlongSane(s: Session, address: u32, offset: u32, length: u16)
    requires Consistent(s, address)
    ensures Sane(ServeOverlong(s, offset, length), address)
  {
    hide Crc32.Checksum, PendingBlock;
  }

  ghost function ServeFrame(s: Session, address: u32, ctrl: Controller, buffer: PayloadBuffer, f: Frame): (x: Exchange)
    requires Consistent(s, address)
    ensures Sane(x, address) && (x.Exchange? ==> |x.replies| == 1)
  {
    hide Consistent, Respond, Step, StepDefined;
    match CommandOf(f, buffer, ctrl)
    case Handler(e) =>
      if !StepDefined(s, e) then Undefined
      else
        StepKeepsConsistent(s, address, e);
        Exchange(Respond(s, address, e).session, [Respond(s, address, e).status])
    case TooShort => Exchange(s, [ERR_INVALID_PAYLOAD])
    case Overlong(offset, length) =>
      OverlongSane(s, address, offset, length);
      ServeOverlong(s, offset, length)
    case NotOta => Exchange(s, [OK])
    case Unknown => Exchange(s, [ERR_UNKNOWN_CMD])
  }

  ghost function ServeFrames(s: Session, address: u32, ctrl: Controller, buffer: PayloadBuffer, frames: seq<Frame>)
      : (x: Exchange)
    requires Consistent(s, address)
    ensures Sane(x, address) && (x.Exchange? ==> |x.replies| == |frames|)
    decreases |frames|
  {
    if frames == [] then Exchange(s, [])
    else
      var first := ServeFrame(s, address, ctrl, buffer, frames[0]);
      if first.Undefined? then Undefined
      else
        var rest := ServeFrames(first.session, address, ctrl, Loaded(buffer, frames[0].payload), frames[1..]);
        if rest.Undefined? then Undefined else Exchange(rest.session, first.replies + rest.replies)
  }

  /** One connection, its bytes arriving in these chunks, the buffer holding what earlier connections left. */
  ghost function Connect(s: Session, address: u32, ctrl: Controller, buffer: PayloadBuffer, chunks: seq<seq<byte>>)
      : (x: Exchange)
    requires Consistent(s, address)
    ensures Sane(x, address)
  {
    ServeFrames(s, address, ctrl, buffer, Parse(Flatten(chunks)).frames)
  }

  // ---------- packets are understood as meant ----------

  lemma BeginUnderstood(req: BeginRequest, seqNum: u32, buffer: PayloadBuffer, ctrl: Controller)
    ensures CommandOf(BeginFrame(req, seqNum), buffer, ctrl) == Handler(Begin(ctrl, req))
  {
    hide Le32, FromLe32, LeWord, FromLeWord, Le16, FromLe16;
    Le32RoundTrip(req.imageSize);
    LeWordRoundTrip(req.imageCrc32);
    Le32RoundTrip(req.targetVersion);
    Le16RoundTrip(req.flags);
    var p := Loaded(buffer, BeginPayload(req));
    assert p[0..4] == Le32(req.imageSize) && p[4..8] == LeWord(req.imageCrc32);
    assert p[8..12] == Le32(req.targetVersion) && p[14..16] == Le16(req.flags);
  }

  lemma DataUnderstood(req: DataRequest, seqNum: u32, buffer: PayloadBuffer, ctrl: Controller)
    requires |req.chunk| <= CHUNK_SIZE_ACK
    ensures CommandOf(DataFrame(req, seqNum), buffer, ctrl) == Handler(Data(ctrl, req))
  {
    hide Le32, FromLe32, LeHalf, FromLeHalf, Le16, FromLe16;
    Le32RoundTrip(req.offset);
    Le16RoundTrip(|req.chunk|);
    HalfRoundTrip(req.chunkCrc16);
    var p := Loaded(buffer, DataPayload(req));
    assert p[0..4] == Le32(req.offset) && p[4..6] == Le16(|req.chunk|) && p[6..8] == LeHalf(req.chunkCrc16);
    assert p[8..8 + |req.chunk|] == req.chunk;
  }

  lemma EndUnderstood(imageCrc32: bv32, autoReboot: bool, seqNum: u32, buffer: PayloadBuffer, ctrl: Controller)
    ensures CommandOf(EndFrame(imageCrc32, autoReboot, seqNum), buffer, ctrl) == Handler(End(autoReboot))
  {
    hide LeWord;
  }

  /** A command-line packet, too, can end the session. */
  lemma CliAbortUnderstood(seqNum: u32, buffer: PayloadBuffer, ctrl: Controller)
    ensures var text := CliLine.OTA + [CliLine.SPACE] + CliLine.ABORT;
            CommandOf(HostFrame(CMD_CLI_EXEC, seqNum, CliPayload(text)), buffer, ctrl) == Handler(Abort)
  {
    hide Le16, FromLe16, CliLine.AbortsOta;
    var text := CliLine.OTA + [CliLine.SPACE] + CliLine.ABORT;
    Le16RoundTrip(|text|);
    CliLine.TwoWords(CliLine.OTA, CliLine.ABORT);
    var b := Loaded(buffer, CliPayload(text));
    assert b[0..2] == Le16(|text|) && b[4..4 + |text|] == text;
  }

  // ---------- a connection for each phase ----------

  /** The data packets the host sends: each waits for the answer to the one before, and the first refusal is the
      last. */
  function Train(s: Session, ctrl: Controller, image: seq<byte>, offset: nat, seqNum: u32): seq<Frame>
    requires |s.staging| == MAX_IMAGE_SIZE && s.totalImageSize <= MAX_IMAGE_SIZE
    requires offset <= |image| <= MAX_IMAGE_SIZE
    decreases |image| - offset
  {
    if offset == |image| then []
    else
      var f := DataFrame(RequestAt(image, offset), seqNum);
      var o := AfterData(s, ctrl, RequestAt(image, offset));
      if o.status != OK then [f]
      else [f] + Train(o.session, ctrl, image, ChunkEnd(|image|, offset), Wrap32(seqNum + 1))
  }

  predicate AllOk(replies: seq<StatusCode>) {
    forall i :: 0 <= i < |replies| ==> replies[i] == OK
  }

  function LastReply(replies: seq<StatusCode>): StatusCode {
    if replies == [] then OK else replies[|replies| - 1]
  }

  lemma {:induction false} TrainIsData(s: Session, ctrl: Controller, image: seq<byte>, offset: nat, seqNum: u32)
    requires |s.staging| == MAX_IMAGE_SIZE && s.totalImageSize <= MAX_IMAGE_SIZE
    requires offset <= |image| <= MAX_IMAGE_SIZE
    ensures AllData(Train(s, ctrl, image, offset, seqNum))
    decreases |image| - offset
  {
    hide AfterData, RequestAt, DataFrame, Sendable;
    if offset < |image| {
      var o := AfterData(s, ctrl, RequestAt(image, offset));
      AfterDataKeepsShape(s, ctrl, RequestAt(image, offset));
      if o.status == OK {
        TrainIsData(o.session, ctrl, image, ChunkEnd(|image|, offset), Wrap32(seqNum + 1));
      }
    }
  }

  lemma DataServed(s: Session, address: u32, ctrl: Controller, buffer: PayloadBuffer, image: seq<byte>, offset: nat,
                   seqNum: u32)
    requires Consistent(s, address) && offset < |image| <= MAX_IMAGE_SIZE
    ensures |s.staging| == MAX_IMAGE_SIZE && s.totalImageSize <= MAX_IMAGE_SIZE
    ensures var o := AfterData(s, ctrl, RequestAt(image, offset));
            && ServeFrame(s, address, ctrl, buffer, DataFrame(RequestAt(image, offset), seqNum))
               == Exchange(o.session, [o.status])
            && Consistent(o.session, address)
  {
    hide Crc32.Checksum, SessionBlock, AfterData, RequestAt, CommandOf, DataFrame, ChunkIntact;
    DataUnderstood(RequestAt(image, offset), seqNum, buffer, ctrl);
    DataKeepsConsistent(s, address, ctrl, RequestAt(image, offset));
  }

  /** Serving the train is the transfer. */
  lemma {:induction false} TrainServed(s: Session, address: u32, ctrl: Controller, buffer: PayloadBuffer,
                                       image: seq<byte>, offset: nat, seqNum: u32)
    requires Consistent(s, address) && offset <= |image| <= MAX_IMAGE_SIZE
    ensures |s.staging| == MAX_IMAGE_SIZE && s.totalImageSize <= MAX_IMAGE_SIZE
    ensures var o := Transfer(s, ctrl, image, offset);
            var x := ServeFrames(s, address, ctrl, buffer, Train(s, ctrl, image, offset, seqNum));
            && x.Exchange? && x.session == o.session && LastReply(x.replies) == o.status
            && (AllOk(x.replies) <==> o.status == OK)
    decreases |image| - offset
  {
    hide Consistent, AfterData, RequestAt, DataFrame, ServeFrame;
    ConsistentStaging(s, address);
    if offset < |image| {
      var req := RequestAt(image, offset);
      var f, o := DataFrame(req, seqNum), AfterData(s, ctrl, req);
      DataServed(s, address, ctrl, buffer, image, offset, seqNum);
      if o.status != OK {
        ServeOne(s, address, ctrl, buffer, f);
      } else {
        var next, n := ChunkEnd(|image|, offset), Wrap32(seqNum + 1);
        TrainServed(o.session, address, ctrl, Loaded(buffer, f.payload), image, next, n);
        var rest := Train(o.session, ctrl, image, next, n);
        assert ([f] + rest)[1..] == rest;
        var x := ServeFrames(o.session, address, ctrl, Loaded(buffer, f.payload), rest);
        assert ServeFrames(s, address, ctrl, buffer, [f] + rest) == Exchange(x.session, [OK] + x.replies);
        RepliesCons(x.replies);
      }
    }
  }

  lemma RepliesCons(replies: seq<StatusCode>)
    ensures LastReply([OK] + replies) == LastReply(replies)
    ensures AllOk([OK] + replies) <==> AllOk(replies)
  {
    assert forall i :: 0 <= i < |replies| ==> ([OK] + replies)[i + 1] == replies[i];
  }

  lemma ConsistentStaging(s: Session, address: u32)
    requires Consistent(s, address)
    ensures |s.staging| == MAX_IMAGE_SIZE && s.totalImageSize <= MAX_IMAGE_SIZE
  {
    hide Crc32.Checksum, SessionBlock;
  }

  lemma ServeOne(s: Session, address: u32, ctrl: Controller, buffer: PayloadBuffer, f: Frame)
    requires Consistent(s, address)
    ensures ServeFrames(s, address, ctrl, buffer, [f]) == ServeFrame(s, address, ctrl, buffer, f)
  {
    hide Consistent, ServeFrame;
    assert [f][1..] == [];
    var first := ServeFrame(s, address, ctrl, buffer, f);
    if first.Exchange? {
      assert first.replies + [] == first.replies;
    }
  }

  // ---------- networks ----------

  /** A network delivers every byte in order, cut into chunks as it likes. */
  ghost predicate Delivers(network: seq<byte> -> seq<seq<byte>>) {
    forall bytes :: Flatten(network(bytes)) == bytes
  }

  lemma OneFrameParsed(f: Frame)
    requires Sendable(f) && f.header.msgType != CMD_OTA_DATA
    ensures Parse(Sent(f)).frames == [f]
  {
    hide Parse, Sent;
    FirstFrame(f, []);
    assert Sent(f) + [] == Sent(f);
  }

  lemma TrainParsed(fs: seq<Frame>)
    requires AllData(fs)
    ensures Parse(SentAll(fs)).frames == fs
  {
    hide Parse, SentAll, AllData;
    DataTrainArrives(fs, []);
    NothingReceived();
    assert SentAll(fs) + [] == SentAll(fs);
    assert fs + [] == fs;
  }

  /** The update with a fresh connection for the begin request, for the data packets and for the end request: the host
      goes on to the next phase when everything so far was acknowledged. */
  ghost function OverWire(s: Session, address: u32, ctrl: Controller, image: seq<byte>, version: u32, autoReboot: bool,
                          seqNum: u32, network: seq<byte> -> seq<seq<byte>>, residue: nat -> PayloadBuffer): Exchange
    requires Consistent(s, address) && |image| < TWO32
  {
    var begun := Connect(s, address, ctrl, residue(0),
                         network(Sent(BeginFrame(BeginFor(image, version, autoReboot), seqNum))));
    if begun.Undefined? || !AllOk(begun.replies) || |image| > MAX_IMAGE_SIZE then begun
    else
      ConsistentStaging(begun.session, address);
      var train := Train(begun.session, ctrl, image, 0, Wrap32(seqNum + 1));
      var sent := Connect(begun.session, address, ctrl, residue(1), network(SentAll(train)));
      if sent.Undefined? || !AllOk(sent.replies) then sent
      else
        Connect(sent.session, address, ctrl, residue(2),
                network(Sent(EndFrame(Crc32.Checksum(image), autoReboot, Wrap32(seqNum + 1 + |train|)))))
  }

  lemma BeginServed(s: Session, address: u32, ctrl: Controller, buffer: PayloadBuffer, req: BeginRequest, seqNum: u32,
                    network: seq<byte> -> seq<seq<byte>>)
    requires Consistent(s, address) && Delivers(network)
    ensures |s.staging| == MAX_IMAGE_SIZE
    ensures var o := AfterBegin(s, ctrl, req);
            && Connect(s, address, ctrl, buffer, network(Sent(BeginFrame(req, seqNum))))
               == Exchange(o.session, [o.status])
            && Consistent(o.session, address)
  {
    hide Consistent, AfterBegin, CommandOf, BeginFrame, Sent, Parse, Flatten;
    ConsistentStaging(s, address);
    var f := BeginFrame(req, seqNum);
    BeginUnderstood(req, seqNum, buffer, ctrl);
    OneFrameParsed(f);
    ServeOne(s, address, ctrl, buffer, f);
    BeginKeepsConsistent(s, address, ctrl, req);
  }

  lemma EndServed(s: Session, address: u32, ctrl: Controller, buffer: PayloadBuffer, crc: bv32, autoReboot: bool,
                  seqNum: u32, network: seq<byte> -> seq<seq<byte>>)
    requires Consistent(s, address) && Delivers(network)
    ensures |s.staging| == MAX_IMAGE_SIZE && s.totalImageSize <= MAX_IMAGE_SIZE
    ensures var o := AfterEnd(s, address, autoReboot);
            Connect(s, address, ctrl, buffer, network(Sent(EndFrame(crc, autoReboot, seqNum))))
            == Exchange(o.session, [o.status])
  {
    hide Consistent, AfterEnd, CommandOf, EndFrame, Sent, Parse, Flatten;
    ConsistentStaging(s, address);
    var f := EndFrame(crc, autoReboot, seqNum);
    EndUnderstood(crc, autoReboot, seqNum, buffer, ctrl);
    OneFrameParsed(f);
    ServeOne(s, address, ctrl, buffer, f);
  }

  lemma DataPhaseServed(s: Session, address: u32, ctrl: Controller, buffer: PayloadBuffer, image: seq<byte>,
                        seqNum: u32, network: seq<byte> -> seq<seq<byte>>)
    requires Consistent(s, address) && Delivers(network) && |image| <= MAX_IMAGE_SIZE
    ensures |s.staging| == MAX_IMAGE_SIZE && s.totalImageSize <= MAX_IMAGE_SIZE
    ensures var o := Transfer(s, ctrl, image, 0);
            var x := Connect(s, address, ctrl, buffer, network(SentAll(Train(s, ctrl, image, 0, seqNum))));
            && x.Exchange? && x.session == o.session && LastReply(x.replies) == o.status
            && (AllOk(x.replies) <==> o.status == OK)
  {
    hide Consistent, Transfer, Train, ServeFrames, SentAll, Parse, Flatten, AllOk, AllData;
    ConsistentStaging(s, address);
    TrainIsData(s, ctrl, image, 0, seqNum);
    TrainParsed(Train(s, ctrl, image, 0, seqNum));
    TrainServed(s, address, ctrl, buffer, image, 0, seqNum);
  }

  /** However the network cuts the bytes, and whatever lies in the payload buffer, the update over three connections is
      the conversation of direct calls: same final session, same last answer. */
  lemma OverWireIsConversation(s: Session, address: u32, ctrl: Controller, image: seq<byte>, version: u32,
                               autoReboot: bool, seqNum: u32, network: seq<byte> -> seq<seq<byte>>,
                               residue: nat -> PayloadBuffer)
    requires Consistent(s, address) && |image| < TWO32 && Delivers(network)
    ensures |s.staging| == MAX_IMAGE_SIZE
    ensures var o := Conversation(s, address, ctrl, image, version, autoReboot);
            var x := OverWire(s, address, ctrl, image, version, autoReboot, seqNum, network, residue);
            && x.Exchange? && x.session == o.session && LastReply(x.replies) == o.status
  {
    hide Consistent, AfterBegin, AfterEnd, Transfer, Train, Connect, Delivers, BeginFrame, EndFrame, Sent, SentAll,
         Crc32.Checksum, AllOk, LastReply;
    ConsistentStaging(s, address);
    var req := BeginFor(image, version, autoReboot);
    BeginServed(s, address, ctrl, residue(0), req, seqNum, network);
    var begun := AfterBegin(s, ctrl, req);
    OneReply(begun.status);
    if begun.status == OK {
      BeginFits(s, ctrl, req);
      ConsistentStaging(begun.session, address);
      DataPhaseServed(begun.session, address, ctrl, residue(1), image, Wrap32(seqNum + 1), network);
      var train := Train(begun.session, ctrl, image, 0, Wrap32(seqNum + 1));
      var sent := Transfer(begun.session, ctrl, image, 0);
      if sent.status == OK {
        EndServed(sent.session, address, ctrl, residue(2), Crc32.Checksum(image), autoReboot,
                  Wrap32(seqNum + 1 + |train|), network);
        OneReply(AfterEnd(sent.session, address, autoReboot).status);
      }
    }
  }

  lemma OneReply(status: StatusCode)
    ensures LastReply([status]) == status
    ensures AllOk([status]) <==> status == OK
  {
    assert [status][0] == status;
  }

  lemma BeginFits(s: Session, ctrl: Controller, req: BeginRequest)
    requires |s.staging| == MAX_IMAGE_SIZE && AfterBegin(s, ctrl, req).status == OK
    ensures req.imageSize <= MAX_IMAGE_SIZE
  {
    hide Overwrite, Fill;
  }

  // ---------- a single connection ----------

  /** The updater opens one connection and asks for node information first: whatever it sends behind that on the same
      connection is never dispatched, and the session stays as it was. */
  lemma SingleConnectionEndsAtNodeInfo(s: Session, address: u32, ctrl: Controller, buffer: PayloadBuffer, seqNum: u32,
                                       later: seq<byte>, chunks: seq<seq<byte>>)
    requires Consistent(s, address)
    requires Flatten(chunks) == Sent(HostFrame(0x0100, seqNum, [])) + later
    ensures Parse(Flatten(chunks)) == Dispatch([HostFrame(0x0100, seqNum, [])], Served)
    ensures Connect(s, address, ctrl, buffer, chunks) == Exchange(s, [OK])
  {
    hide Consistent, Parse, Sent, Flatten;
    var f := HostFrame(0x0100, seqNum, []);
    FirstFrame(f, later);
    ServeOne(s, address, ctrl, buffer, f);
  }

  /** Without that query it would end one packet later: behind a begin request nothing is dispatched either. */
  lemma NothingBehindBegin(fs: seq<Frame>, i: nat, k: nat)
    requires forall j :: 0 <= j < |fs| ==> Sendable(fs[j])
    requires i < k < |fs| && fs[i].header.msgType == CMD_OTA_BEGIN
    ensures k >= |Parse(SentAll(fs)).frames|
  {
    hide Parse, SentAll, Sendable;
    DispatchedExactly(fs);
    assert !OnlyDataBefore(fs, k);
  }

  /** Outside a transfer a data packet changes nothing. */
  lemma IdleDataIgnored(s: Session, address: u32, ctrl: Controller, buffer: PayloadBuffer, f: Frame)
    requires Consistent(s, address) && s.state != RECEIVING && f.header.msgType == CMD_OTA_DATA
    ensures ServeFrame(s, address, ctrl, buffer, f).Exchange? && ServeFrame(s, address, ctrl, buffer, f).session == s
  {
    hide Crc32.Checksum, SessionBlock, FromLe16, FromLe32, FromLeHalf, ChunkIntact, ChunkInBounds;
  }

  lemma IdleCommandNotReady(s: Session, address: u32, ctrl: Controller, buffer: PayloadBuffer, f: Frame)
    requires Consistent(s, address) && s.state != RECEIVING && s.state != READY && f.header.msgType != CMD_OTA_DATA
    ensures var x := ServeFrame(s, address, ctrl, buffer, f); x.Exchange? && x.session.state != READY
  {
    hide Crc32.Checksum, SessionBlock, FromLe16, FromLe32, FromLeWord, Overwrite, Fill;
  }

  /** No bytes at all, on one connection, take a node that is not in a transfer to READY: an update needs at least two
      connections. */
  lemma {:induction false} OneConnectionNeverReady(s: Session, address: u32, ctrl: Controller, buffer: PayloadBuffer,
                                                   flat: seq<byte>)
    requires Consistent(s, address) && s.state != RECEIVING && s.state != READY
    ensures var x := ServeFrames(s, address, ctrl, buffer, Parse(flat).frames); x.Exchange? && x.session.state != READY
    decreases |flat|
  {
    hide Consistent, ServeFrame, Front;
    FrontShape(flat);
    if Front(flat).Next? {
      var f := Front(flat).frame;
      if f.header.msgType != CMD_OTA_DATA {
        IdleCommandNotReady(s, address, ctrl, buffer, f);
        ServeOne(s, address, ctrl, buffer, f);
      } else {
        var rest := flat[HEADER_SIZE + |f.payload|..];
        OneConnectionNeverReady(s, address, ctrl, Loaded(buffer, f.payload), rest);
        IdleDataIgnored(s, address, ctrl, buffer, f);
        assert ([f] + Parse(rest).frames)[1..] == Parse(rest).frames;
      }
    }
  }

  lemma FrontShape(flat: seq<byte>)
    ensures Front(flat).Next? ==> HEADER_SIZE + |Front(flat).frame.payload| <= |flat|
  {
    hide Decode;
  }
}
