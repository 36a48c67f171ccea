/** The OTA session of the firmware as a state machine on values: what each handler does to the
    session, and what holds after any sequence of handler calls. */
module OtaSession {
  import opened Bytes
  import opened Crc32
  import Crc16
  import opened OtaTypes

  const MAX_IMAGE_SIZE := 160 * 1024
  const CHUNK_SIZE_ACK := 1024

  datatype State = IDLE | RECEIVING | VERIFYING | READY | ERROR_STATE

  /** The system controller the service asks for policy and identity, when it has one. */
  datatype Controller =
    | NoController
    | Controller(otaEnabled: bool, boardId: u16, bootloaderVersion: u32)

  datatype BeginRequest = BeginRequest(imageSize: u32, imageCrc32: bv32, targetVersion: u32, flags: u16)

  datatype DataRequest = DataRequest(offset: u32, chunkCrc16: bv16, chunk: seq<byte>)
  {
    /** dataLen is 16 bits wide. */
    predicate WellFormed() {
      |chunk| < 0x1_0000
    }
  }

  datatype Session = Session(
    state: State,
    lastError: StatusCode,
    totalImageSize: u32,
    expectedCrc32: bv32,
    targetVersion: u32,
    bytesWritten: u32,
    incrementalCrc: bv32,
    autoReboot: bool,
    rebootPending: bool,
    staging: seq<byte>,
    block: OtaControlBlock)

  datatype Outcome = Outcome(session: Session, status: StatusCode)

  // ---------- the handlers ----------

  /** memset covers the image rounded up to 256 bytes. */
  function RoundUp256(n: nat): nat {
    (n + 255) / 256 * 256
  }

  predicate BeginAllowed(ctrl: Controller, req: BeginRequest) {
    (ctrl.Controller? ==> ctrl.otaEnabled) && 0 < req.imageSize <= MAX_IMAGE_SIZE
  }

  function AfterBegin(s: Session, ctrl: Controller, req: BeginRequest): Outcome
    requires |s.staging| == MAX_IMAGE_SIZE
  {
    if ctrl.Controller? && !ctrl.otaEnabled then
      Outcome(s.(lastError := ERR_OTA_DISABLED), ERR_OTA_DISABLED)
    else if req.imageSize == 0 || req.imageSize > MAX_IMAGE_SIZE then
      Outcome(s.(lastError := ERR_IMAGE_TOO_LARGE), ERR_IMAGE_TOO_LARGE)
    else
      Outcome(
        Session(RECEIVING, OK, req.imageSize, req.imageCrc32, req.targetVersion, 0, INITIAL_REMAINDER,
                req.flags % 2 == 1, false, Overwrite(s.staging, 0, Fill(0xFF, RoundUp256(req.imageSize))), s.block),
        OK)
  }

  /** What the embedded header, once received, says about the image. */
  function HeaderVerdict(image: seq<byte>, ctrl: Controller): StatusCode
    requires HasHeaderRange(|image|)
  {
    var h := HeaderAt(image);
    if h.magic != EPFW_MAGIC then OK
    else if !h.IsValid() then ERR_INVALID_CRC
    else if ctrl.Controller? && h.boardId != ctrl.boardId then ERR_INCOMPATIBLE_BOARD
    else if ctrl.Controller? && ctrl.bootloaderVersion < h.minBootloaderVersion then ERR_INCOMPATIBLE_BOOTLOADER
    else OK
  }

  /** The bounds check, in 32-bit arithmetic. */
  predicate ChunkInBounds(s: Session, req: DataRequest) {
    Wrap32(req.offset + |req.chunk|) <= s.totalImageSize
  }

  /** A zero checksum means the host did not send one. */
  predicate ChunkIntact(req: DataRequest) {
    req.chunkCrc16 != 0 ==> Crc16.Checksum(req.chunk) == req.chunkCrc16
  }

  /** The bounds check lets a chunk through although offset + dataLen wraps: the copy then leaves the staging buffer,
      and what the program does next is undefined. */
  predicate Overruns(s: Session, req: DataRequest) {
    && s.state == RECEIVING && ChunkInBounds(s, req) && ChunkIntact(req)
    && req.offset + |req.chunk| >= TWO32
  }

  function AfterData(s: Session, ctrl: Controller, req: DataRequest): Outcome
    requires |s.staging| == MAX_IMAGE_SIZE && s.totalImageSize <= MAX_IMAGE_SIZE
    requires req.WellFormed() && !Overruns(s, req)
  {
    if s.state != RECEIVING then
      Outcome(s, ERR_BUSY)
    else if !ChunkInBounds(s, req) then
      Outcome(s.(lastError := ERR_INVALID_PAYLOAD), ERR_INVALID_PAYLOAD)
    else if !ChunkIntact(req) then
      Outcome(s.(lastError := ERR_INVALID_CRC), ERR_INVALID_CRC)
    else
      var s' := s.(staging := Overwrite(s.staging, req.offset, req.chunk),
                   incrementalCrc := Fold(s.incrementalCrc, req.chunk),
                   bytesWritten := req.offset + |req.chunk|);
      var verdict := if HasHeaderRange(s'.bytesWritten) then HeaderVerdict(s'.staging, ctrl) else OK;
      if verdict == OK then Outcome(s', OK) else Outcome(s'.(lastError := verdict), verdict)
  }

  function PendingBlock(size: u32, crc: bv32, version: u32, address: u32): OtaControlBlock {
    var blk := OtaControlBlock(OTA_MAGIC, PENDING_INSTALL, size, crc, version, address, SLOT_A_PHYSICAL_BASE, 0);
    blk.(structCrc32 := Checksum(BlockBody(blk)))
  }

  function SessionBlock(s: Session, address: u32): OtaControlBlock {
    PendingBlock(s.totalImageSize, s.expectedCrc32, s.targetVersion, address)
  }

  function AfterEnd(s: Session, address: u32, autoReboot: bool): Outcome
    requires |s.staging| == MAX_IMAGE_SIZE && s.totalImageSize <= MAX_IMAGE_SIZE
  {
    if s.state != RECEIVING then
      Outcome(s, ERR_BUSY)
    else if Checksum(s.staging[..s.totalImageSize]) != s.expectedCrc32 then
      Outcome(s.(state := ERROR_STATE, lastError := ERR_INVALID_CRC), ERR_INVALID_CRC)
    else
      Outcome(
        s.(state := READY, rebootPending := s.rebootPending || s.autoReboot || autoReboot,
           block := SessionBlock(s, address)),
        OK)
  }

  function AfterAbort(s: Session): Session {
    s.(state := IDLE, lastError := OK, bytesWritten := 0, rebootPending := false)
  }

  // ---------- sequences of calls ----------

  datatype Event =
    | Begin(ctrl: Controller, begin: BeginRequest)
    | Data(ctrl: Controller, data: DataRequest)
    | End(autoReboot: bool)
    | Abort

  predicate StepDefined(s: Session, e: Event) {
    e.Data? ==> e.data.WellFormed() && !Overruns(s, e.data)
  }

  function Step(s: Session, address: u32, e: Event): Session
    requires |s.staging| == MAX_IMAGE_SIZE && s.totalImageSize <= MAX_IMAGE_SIZE
    requires StepDefined(s, e)
  {
    match e
    case Begin(ctrl, req) => AfterBegin(s, ctrl, req).session
    case Data(ctrl, req) => AfterData(s, ctrl, req).session
    case End(autoReboot) => AfterEnd(s, address, autoReboot).session
    case Abort => AfterAbort(s)
  }

  /** What is true of the session between any two handler calls. */
  ghost predicate Consistent(s: Session, address: u32) {
    && |s.staging| == MAX_IMAGE_SIZE
    && s.bytesWritten <= s.totalImageSize <= MAX_IMAGE_SIZE
    && s.state != VERIFYING
    && (s.state in {RECEIVING, READY} ==> s.totalImageSize > 0)
    && (s.rebootPending ==> s.state == READY)
    && (s.state == READY ==>
          && Checksum(s.staging[..s.totalImageSize]) == s.expectedCrc32
          && s.block == SessionBlock(s, address))
  }

  lemma BeginKeepsConsistent(s: Session, address: u32, ctrl: Controller, req: BeginRequest)
    requires Consistent(s, address)
    ensures Consistent(AfterBegin(s, ctrl, req).session, address)
  {
    hide Checksum, Overwrite, PendingBlock, Fill;
  }

  lemma DataKeepsConsistent(s: Session, address: u32, ctrl: Controller, req: DataRequest)
    requires Consistent(s, address) && req.WellFormed() && !Overruns(s, req)
    ensures Consistent(AfterData(s, ctrl, req).session, address)
  {
    hide Checksum, Overwrite, SessionBlock, Fold, HeaderVerdict, ChunkIntact;
  }

  lemma EndKeepsConsistent(s: Session, address: u32, autoReboot: bool)
    requires Consistent(s, address)
    ensures Consistent(AfterEnd(s, address, autoReboot).session, address)
  {
    hide Checksum, PendingBlock;
  }

  lemma StepKeepsConsistent(s: Session, address: u32, e: Event)
    requires Consistent(s, address) && StepDefined(s, e)
    ensures Consistent(Step(s, address, e), address)
  {
    hide AfterBegin, AfterData, AfterEnd, Checksum, SessionBlock;
    match e {
      case Begin(ctrl, req) => BeginKeepsConsistent(s, address, ctrl, req);
      case Data(ctrl, req) => DataKeepsConsistent(s, address, ctrl, req);
      case End(autoReboot) => EndKeepsConsistent(s, address, autoReboot);
      case Abort => hide Checksum, SessionBlock;
    }
  }

  /** No chunk of the sequence overruns the buffer in the session it meets. */
  ghost predicate Admissible(s: Session, address: u32, events: seq<Event>)
    requires Consistent(s, address)
    decreases |events|
  {
    events == []
    || (StepDefined(s, events[0])
        && (StepKeepsConsistent(s, address, events[0]);
            Admissible(Step(s, address, events[0]), address, events[1..])))
  }

  function Run(s: Session, address: u32, events: seq<Event>): (r: Session)
    requires Consistent(s, address) && Admissible(s, address, events)
    ensures Consistent(r, address)
    decreases |events|
  {
    if events == [] then s
    else
      StepKeepsConsistent(s, address, events[0]);
      Run(Step(s, address, events[0]), address, events[1..])
  }

  /** The session as constructed, over whatever the RAM holds. */
  function Fresh(staging: seq<byte>, block: OtaControlBlock): Session {
    Session(IDLE, OK, 0, 0, 0, 0, INITIAL_REMAINDER, false, false, staging, block)
  }
}
