/** The host updater's transfer as a recursion over the firmware's handlers, and what an in-order
    transfer achieves on any image. */
module OtaTransfer {
  import opened Bytes
  import opened Crc32
  import opened Crc32Laws
  import Crc16
  import opened OtaTypes
  import opened OtaSession

  function ChunkEnd(size: nat, offset: nat): nat {
    if offset + CHUNK_SIZE_ACK < size then offset + CHUNK_SIZE_ACK else size
  }

  function RequestAt(image: seq<byte>, offset: nat): (req: DataRequest)
    requires offset < |image| <= MAX_IMAGE_SIZE
    ensures req.WellFormed() && 0 < |req.chunk| <= CHUNK_SIZE_ACK && req.offset + |req.chunk| <= |image|
  {
    var chunk := image[offset..ChunkEnd(|image|, offset)];
    DataRequest(offset, Crc16.Checksum(chunk), chunk)
  }

  /** The chunks are 1024 bytes, in order and without gap or overlap; the last one is what is left. */
  lemma NextChunk(image: seq<byte>, offset: nat)
    requires offset < |image| <= 163840
    ensures var req, next := RequestAt(image, offset), ChunkEnd(|image|, offset);
            && req.offset == offset && req.chunk == image[offset..next] && req.chunkCrc16 == Crc16.Checksum(req.chunk)
            && (next == |image| || next == offset + 1024) && next <= offset + 1024
  {
    hide Crc16.Checksum;
  }

  /** The host's loop from a given offset on: it stops at the first chunk that is not acknowledged. */
  function Transfer(s: Session, ctrl: Controller, image: seq<byte>, offset: nat): Outcome
    requires |s.staging| == MAX_IMAGE_SIZE && s.totalImageSize <= MAX_IMAGE_SIZE
    requires offset <= |image| <= MAX_IMAGE_SIZE
    decreases |image| - offset
  {
    if offset == |image| then Outcome(s, OK)
    else
      var o := AfterData(s, ctrl, RequestAt(image, offset));
      if o.status != OK then o else Transfer(o.session, ctrl, image, ChunkEnd(|image|, offset))
  }

  function BeginFor(image: seq<byte>, version: u32, autoReboot: bool): BeginRequest
    requires |image| < 0x1_0000_0000
  {
    BeginRequest(|image|, Checksum(image), version, if autoReboot then 1 else 0)
  }

  /** The whole conversation: begin, the chunks in order, end. */
  function Conversation(s: Session, address: u32, ctrl: Controller, image: seq<byte>, version: u32,
                        autoReboot: bool): Outcome
    requires |s.staging| == MAX_IMAGE_SIZE && |image| < 0x1_0000_0000
  {
    var begun := AfterBegin(s, ctrl, BeginFor(image, version, autoReboot));
    if begun.status != OK then begun
    else
      var sent := Transfer(begun.session, ctrl, image, 0);
      if sent.status != OK then sent
      else
        TransferKeepsShape(begun.session, ctrl, image, 0);
        AfterEnd(sent.session, address, autoReboot)
  }

  /** The image carries no header, or one this controller accepts. */
  predicate PassesGate(image: seq<byte>, ctrl: Controller) {
    HasHeaderRange(|image|) ==> HeaderVerdict(image, ctrl) == OK
  }

  /** What the node answers to the chunk that completes the header's range, and to every later one. */
  function GateVerdict(image: seq<byte>, ctrl: Controller): StatusCode {
    if HasHeaderRange(|image|) then HeaderVerdict(image, ctrl) else OK
  }

  // ---------- one chunk ----------

  /** The first n bytes of the image have arrived, in order. */
  ghost predicate Arrived(s: Session, image: seq<byte>, n: nat) {
    && |s.staging| == MAX_IMAGE_SIZE
    && n <= |image| == s.totalImageSize <= MAX_IMAGE_SIZE
    && s.state == RECEIVING
    && s.staging[..n] == image[..n]
    && s.incrementalCrc == Fold(INITIAL_REMAINDER, image[..n])
  }

  lemma AfterDataKeepsShape(s: Session, ctrl: Controller, req: DataRequest)
    requires |s.staging| == MAX_IMAGE_SIZE && s.totalImageSize <= MAX_IMAGE_SIZE
    requires req.WellFormed() && !Overruns(s, req)
    ensures var t := AfterData(s, ctrl, req).session;
            && |t.staging| == MAX_IMAGE_SIZE && t.totalImageSize == s.totalImageSize
            && t.expectedCrc32 == s.expectedCrc32 && t.targetVersion == s.targetVersion && t.state == s.state
            && t.autoReboot == s.autoReboot && t.rebootPending == s.rebootPending && t.block == s.block
  {
    hide Fold, HeaderVerdict, ChunkIntact;
  }

  lemma {:induction false} TransferKeepsShape(s: Session, ctrl: Controller, image: seq<byte>, offset: nat)
    requires |s.staging| == MAX_IMAGE_SIZE && s.totalImageSize <= MAX_IMAGE_SIZE
    requires offset <= |image| <= MAX_IMAGE_SIZE
    ensures var t := Transfer(s, ctrl, image, offset).session;
            && |t.staging| == MAX_IMAGE_SIZE && t.totalImageSize == s.totalImageSize
            && t.expectedCrc32 == s.expectedCrc32 && t.targetVersion == s.targetVersion && t.state == s.state
            && t.autoReboot == s.autoReboot && t.rebootPending == s.rebootPending && t.block == s.block
    decreases |image| - offset
  {
    hide AfterData, RequestAt;
    if offset < |image| {
      var o := AfterData(s, ctrl, RequestAt(image, offset));
      AfterDataKeepsShape(s, ctrl, RequestAt(image, offset));
      if o.status == OK {
        TransferKeepsShape(o.session, ctrl, image, ChunkEnd(|image|, offset));
      }
    }
  }

  lemma OverwriteExtends(buffer: seq<byte>, image: seq<byte>, n: nat, e: nat)
    requires n <= e <= |image| <= |buffer| && buffer[..n] == image[..n]
    ensures Overwrite(buffer, n, image[n..e])[..e] == image[..e]
  {
    assert image[..e] == image[..n] + image[n..e];
  }

  /** Once the header lies inside the received prefix, the staging buffer shows the image's own header. */
  lemma PrefixShowsHeader(staging: seq<byte>, image: seq<byte>, n: nat, ctrl: Controller)
    requires n <= |image| <= |staging| && staging[..n] == image[..n] && HasHeaderRange(n)
    ensures HeaderVerdict(staging, ctrl) == HeaderVerdict(image, ctrl)
  {
    hide Checksum, FromLe32, FromLe16, FromLeWord;
    var lo, hi := APP_HEADER_FLASH_OFFSET, APP_HEADER_FLASH_OFFSET + APP_HEADER_SIZE;
    assert staging[lo..hi] == staging[..n][lo..hi] == image[..n][lo..hi] == image[lo..hi];
  }

  lemma ChunkArrives(s: Session, ctrl: Controller, image: seq<byte>, n: nat)
    requires Arrived(s, image, n) && n < |image|
    ensures var o := AfterData(s, ctrl, RequestAt(image, n));
            var e := ChunkEnd(|image|, n);
            && Arrived(o.session, image, e)
            && o.session.bytesWritten == e
            && o.status == (if HasHeaderRange(e) then HeaderVerdict(image, ctrl) else OK)
  {
    hide Fold, Crc16.Fold, HeaderVerdict, Overwrite;
    var e := ChunkEnd(|image|, n);
    OverwriteExtends(s.staging, image, n, e);
    FoldConcat(INITIAL_REMAINDER, image[..n], image[n..e]);
    assert image[..e] == image[..n] + image[n..e];
    if HasHeaderRange(e) {
      PrefixShowsHeader(Overwrite(s.staging, n, image[n..e]), image, e, ctrl);
    }
  }

  // ---------- the whole transfer ----------

  /** From any point before the last byte, the transfer is acknowledged throughout exactly when the image passes
      the gate, and then the whole image is in the staging buffer with its checksum already accumulated. */
  lemma {:induction false} TransferArrives(s: Session, ctrl: Controller, image: seq<byte>, n: nat)
    requires Arrived(s, image, n) && n < |image|
    ensures var o := Transfer(s, ctrl, image, n);
            && o.status == GateVerdict(image, ctrl)
            && (o.status == OK <==> PassesGate(image, ctrl))
            && (o.status == OK ==> Arrived(o.session, image, |image|) && o.session.bytesWritten == |image|)
    decreases |image| - n
  {
    hide AfterData, RequestAt, Fold, HeaderVerdict;
    var o := AfterData(s, ctrl, RequestAt(image, n));
    var e := ChunkEnd(|image|, n);
    ChunkArrives(s, ctrl, image, n);
    if o.status == OK && e < |image| {
      TransferArrives(o.session, ctrl, image, e);
    }
  }

  lemma BeginArrives(s: Session, ctrl: Controller, image: seq<byte>, version: u32, autoReboot: bool)
    requires |s.staging| == MAX_IMAGE_SIZE && |image| < 0x1_0000_0000
    requires BeginAllowed(ctrl, BeginFor(image, version, autoReboot))
    ensures var o := AfterBegin(s, ctrl, BeginFor(image, version, autoReboot));
            && o.status == OK && Arrived(o.session, image, 0)
            && o.session.expectedCrc32 == Checksum(image) && o.session.targetVersion == version
            && o.session.autoReboot == autoReboot && !o.session.rebootPending
  {
    hide Checksum, Overwrite, Fold;
    assert image[..0] == [];
    FoldEmpty(INITIAL_REMAINDER);
  }

  /** A begun session has the image's range, up to the next multiple of 256, filled with 0xFF and nothing else touched:
      whatever is never sent stays erased. */
  lemma BegunBufferIsErased(s: Session, ctrl: Controller, req: BeginRequest)
    requires |s.staging| == MAX_IMAGE_SIZE && BeginAllowed(ctrl, req)
    ensures var t := AfterBegin(s, ctrl, req).session;
            var end := RoundUp256(req.imageSize);
            && req.imageSize <= end < req.imageSize + 256 && end % 256 == 0 && end <= |t.staging| == |s.staging|
            && (forall i :: 0 <= i < end ==> t.staging[i] == 0xFF)
            && t.staging[end..] == s.staging[end..]
  {}

  /** Ending a session before everything was sent: the node takes the missing rest for 0xFF, and accepts exactly when
      that has the announced checksum. */
  lemma EarlyEnd(s: Session, address: u32, autoReboot: bool, received: seq<byte>)
    requires |s.staging| == MAX_IMAGE_SIZE && s.state == RECEIVING
    requires |received| <= s.totalImageSize <= MAX_IMAGE_SIZE
    requires s.staging[..|received|] == received
    requires forall i :: |received| <= i < s.totalImageSize ==> s.staging[i] == 0xFF
    ensures AfterEnd(s, address, autoReboot).status == OK
       <==> Checksum(received + Fill(0xFF, s.totalImageSize - |received|)) == s.expectedCrc32
  {
    hide Checksum, PendingBlock;
    assert s.staging[..s.totalImageSize] == received + Fill(0xFF, s.totalImageSize - |received|);
  }

  /** For every image, the conversation ends in READY exactly when the node allows updates, the image fits and
      passes the gate; the staging buffer then starts with the image and the control block describes it. */
  lemma ConversationDelivers(s: Session, address: u32, ctrl: Controller, image: seq<byte>, version: u32,
                             autoReboot: bool)
    requires |s.staging| == MAX_IMAGE_SIZE && |image| < 0x1_0000_0000
    ensures var o := Conversation(s, address, ctrl, image, version, autoReboot);
            && (o.status == OK <==> BeginAllowed(ctrl, BeginFor(image, version, autoReboot)) && PassesGate(image, ctrl))
            && (BeginAllowed(ctrl, BeginFor(image, version, autoReboot)) ==> o.status == GateVerdict(image, ctrl))
            && (o.status == OK ==>
                  && o.session.state == READY
                  && |o.session.staging| == MAX_IMAGE_SIZE
                  && o.session.staging[..|image|] == image
                  && o.session.bytesWritten == |image|
                  && Finalize(o.session.incrementalCrc) == Checksum(image)
                  && o.session.rebootPending == autoReboot
                  && o.session.block == PendingBlock(|image|, Checksum(image), version, address))
  {
    hide AfterBegin, AfterData, AfterEnd, Transfer, PendingBlock, Checksum, Fold, HeaderVerdict;
    var req := BeginFor(image, version, autoReboot);
    var begun := AfterBegin(s, ctrl, req);
    if BeginAllowed(ctrl, req) {
      BeginArrives(s, ctrl, image, version, autoReboot);
      TransferKeepsShape(begun.session, ctrl, image, 0);
      TransferArrives(begun.session, ctrl, image, 0);
      var sent := Transfer(begun.session, ctrl, image, 0);
      if sent.status == OK {
        EndAccepts(sent.session, address, image, autoReboot);
      }
    } else {
      BeginRefuses(s, ctrl, req);
    }
  }

  lemma BeginRefuses(s: Session, ctrl: Controller, req: BeginRequest)
    requires |s.staging| == MAX_IMAGE_SIZE && !BeginAllowed(ctrl, req)
    ensures var o := AfterBegin(s, ctrl, req);
            && o.status == (if ctrl.Controller? && !ctrl.otaEnabled then ERR_OTA_DISABLED else ERR_IMAGE_TOO_LARGE)
            && o.session == s.(lastError := o.status)
  {}

  lemma EndAccepts(s: Session, address: u32, image: seq<byte>, autoReboot: bool)
    requires Arrived(s, image, |image|) && s.expectedCrc32 == Checksum(image)
    ensures var o := AfterEnd(s, address, autoReboot);
            && o.status == OK && o.session.state == READY
            && o.session == s.(state := READY, rebootPending := s.rebootPending || s.autoReboot || autoReboot,
                               block := PendingBlock(|image|, Checksum(image), s.targetVersion, address))
            && Finalize(s.incrementalCrc) == Checksum(image)
  {
    hide PendingBlock, Fold;
    assert image[..|image|] == image;
  }
}
