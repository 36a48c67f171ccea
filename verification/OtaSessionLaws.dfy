/** What holds of the OTA session over every sequence of handler calls, good or bad, and what a refused
    or aborted session leaves behind. */
module OtaSessionLaws {
  import opened Bytes
  import opened Crc32
  import opened Crc32Laws
  import Crc16
  import opened OtaTypes
  import opened OtaSession
  import opened Bootloader
  import BootloaderLaws

  // ---------- over every run ----------

  /** Whatever calls were made since start-up: READY means the staged bytes have the announced checksum and the
      control block describes exactly them; a pending reboot means READY; progress never exceeds the announced size
      nor the buffer; the intermediate state is never seen. */
  lemma SessionInvariant(staging: seq<byte>, block: OtaControlBlock, address: u32, events: seq<Event>)
    requires |staging| == MAX_IMAGE_SIZE && Admissible(Fresh(staging, block), address, events)
    ensures var s := Run(Fresh(staging, block), address, events);
            && |s.staging| == MAX_IMAGE_SIZE
            && s.bytesWritten <= s.totalImageSize <= MAX_IMAGE_SIZE
            && s.state != VERIFYING
            && (s.rebootPending ==> s.state == READY)
            && (s.state == READY ==>
                  && Checksum(s.staging[..s.totalImageSize]) == s.expectedCrc32
                  && s.block == PendingBlock(s.totalImageSize, s.expectedCrc32, s.targetVersion, address)
                  && Accepts(s.block) && SizeAllowed(s.block))
  {
    hide Checksum, PendingBlock, Accepts;
    var s := Run(Fresh(staging, block), address, events);
    if s.state == READY {
      PendingBlockAccepted(s.totalImageSize, s.expectedCrc32, s.targetVersion, address);
    }
  }

  /** Every block the service writes is accepted by the bootloader. */
  lemma PendingBlockAccepted(size: u32, crc: bv32, version: u32, address: u32)
    requires 0 < size <= MAX_IMAGE_SIZE
    ensures Accepts(PendingBlock(size, crc, version, address)) && SizeAllowed(PendingBlock(size, crc, version, address))
  {
    hide Checksum, BlockBody;
    var blk := OtaControlBlock(OTA_MAGIC, PENDING_INSTALL, size, crc, version, address, SLOT_A_PHYSICAL_BASE, 0);
    BootloaderLaws.BodyIgnoresCrc(blk, PendingBlock(size, crc, version, address));
  }

  lemma {:induction false} RunConcat(s: Session, address: u32, a: seq<Event>, b: seq<Event>)
    requires Consistent(s, address) && Admissible(s, address, a + b)
    ensures Admissible(s, address, a) && Admissible(Run(s, address, a), address, b)
    ensures Run(s, address, a + b) == Run(Run(s, address, a), address, b)
    decreases |a|
  {
    hide Checksum, SessionBlock, Step;
    if a == [] {
      assert a + b == b;
    } else {
      StepKeepsConsistent(s, address, a[0]);
      assert (a + b)[0] == a[0] && (a + b)[1..] == a[1..] + b;
      RunConcat(Step(s, address, a[0]), address, a[1..], b);
    }
  }

  /** The state right after a successful end request. */
  ghost predicate JustVerified(s: Session, address: u32) {
    && s.state == READY
    && s.totalImageSize <= |s.staging|
    && Checksum(s.staging[..s.totalImageSize]) == s.expectedCrc32
    && s.block == SessionBlock(s, address)
  }

  lemma StepBlock(s: Session, address: u32, e: Event)
    requires Consistent(s, address) && StepDefined(s, e)
    ensures var t := Step(s, address, e); t.block == s.block || JustVerified(t, address)
  {
    hide Checksum, PendingBlock, Fold, Overwrite, HeaderVerdict, ChunkIntact, ChunkInBounds, Fill, RoundUp256;
  }

  /** The control block the bootloader finds was either there before the service started, or was written at a moment
      when the staged bytes had the checksum it names. */
  lemma {:induction false} BlockProvenance(s: Session, address: u32, events: seq<Event>)
    requires Consistent(s, address) && Admissible(s, address, events)
    ensures var r := Run(s, address, events);
            || r.block == s.block
            || exists k :: 0 < k <= |events| && Admissible(s, address, events[..k])
                 && var t := Run(s, address, events[..k]); JustVerified(t, address) && r.block == t.block
    decreases |events|
  {
    hide Step, Checksum, SessionBlock, JustVerified;
    if events != [] {
      var n := |events| - 1;
      var before, last := events[..n], events[n];
      assert events == before + [last];
      RunConcat(s, address, before, [last]);
      BlockProvenance(s, address, before);
      var t := Run(s, address, before);
      RunSingle(t, address, last);
      StepBlock(t, address, last);
      var r := Run(s, address, events);
      if r.block != t.block {
        assert events[..|events|] == events;
      } else if r.block != s.block {
        var k :| 0 < k <= |before| && Admissible(s, address, before[..k])
                 && var u := Run(s, address, before[..k]); JustVerified(u, address) && t.block == u.block;
        assert events[..k] == before[..k];
      }
    }
  }

  lemma RunSingle(s: Session, address: u32, e: Event)
    requires Consistent(s, address) && Admissible(s, address, [e])
    ensures StepDefined(s, e)
    ensures Run(s, address, [e]) == Step(s, address, e)
  {
    hide Step, Checksum, SessionBlock;
    assert [e][0] == e;
    StepKeepsConsistent(s, address, e);
    assert [e][1..] == [];
  }

  // ---------- the bounds check ----------

  /** The 32-bit bounds check decides as unbounded arithmetic would exactly when the sum does not wrap, or wraps to
      something the image size still refuses. */
  lemma BoundsCheckSound(offset: u32, len: u16, total: u32)
    ensures (Wrap32(offset + len) <= total <==> offset + len <= total)
       <==> offset + len < TWO32 || offset + len - TWO32 > total
  {}

  /** A chunk that gets past both checks stays inside the announced image exactly when its end does not wrap; otherwise
      it starts behind the end of the buffer. */
  lemma OverrunLeavesBuffer(s: Session, address: u32, req: DataRequest)
    requires Consistent(s, address) && s.state == RECEIVING && req.WellFormed()
    requires ChunkInBounds(s, req) && ChunkIntact(req)
    ensures !Overruns(s, req) <==> req.offset + |req.chunk| <= s.totalImageSize
    ensures Overruns(s, req) ==> req.offset > |s.staging|
  {
    hide Crc32.Checksum, ChunkIntact, SessionBlock;
    BoundsCheckSound(req.offset, |req.chunk|, s.totalImageSize);
  }

  /** Such a chunk exists for every session that is receiving. */
  lemma OverrunExists(s: Session, address: u32)
    requires Consistent(s, address) && s.state == RECEIVING
    ensures Overruns(s, DataRequest(TWO32 - 1, 0, [0]))
  {
    hide Crc32.Checksum, SessionBlock;
  }

  // ---------- refused chunks ----------

  /** A chunk outside the session, outside the image or with a wrong checksum leaves no trace but the error code. */
  lemma RefusedChunkLeavesNoTrace(s: Session, ctrl: Controller, req: DataRequest)
    requires |s.staging| == MAX_IMAGE_SIZE && s.totalImageSize <= MAX_IMAGE_SIZE && req.WellFormed()
    requires s.state != RECEIVING || !ChunkInBounds(s, req) || !ChunkIntact(req)
    ensures var o := AfterData(s, ctrl, req);
            && o.status != OK
            && o.session == s.(lastError := o.session.lastError)
            && (s.state != RECEIVING ==> o.session == s)
  {
    hide ChunkIntact;
  }

  /** Damage to at most two consecutive bytes of a chunk is noticed exactly when the host sent a checksum, that is,
      when the checksum of the undamaged chunk is not zero. */
  lemma DamagedChunkNoticed(sent: seq<byte>, arrived: seq<byte>, offset: u32, k: nat)
    requires sent != arrived && DifferOnlyWithin(sent, arrived, k, 2)
    ensures ChunkIntact(DataRequest(offset, Crc16.Checksum(sent), arrived)) <==> Crc16.Checksum(sent) == 0
  {
    hide Crc16.Fold;
    if Crc16.Checksum(sent) == Crc16.Checksum(arrived) {
      Crc16.BurstDetected(sent, arrived, k);
    }
  }

  /** Chunks without a usable checksum exist in every length from two bytes on: whatever arrives in their place is taken
      for intact, were it damaged throughout. */
  lemma UncheckedChunk(zeros: nat, arrived: seq<byte>, offset: u32)
    ensures ChunkIntact(DataRequest(offset, Crc16.Checksum(Crc16.Unchecked(zeros)), arrived))
  {
    hide Crc16.Checksum, Crc16.Unchecked;
    Crc16.UncheckedIsZero(zeros);
  }

  /** At such a chunk one changed byte passes. */
  lemma DamagedChunkPasses(zeros: nat, offset: u32)
    ensures var sent := Crc16.Unchecked(zeros);
            var arrived := sent[0 := 0];
            && sent != arrived && DifferOnlyWithin(sent, arrived, 0, 2)
            && ChunkIntact(DataRequest(offset, Crc16.Checksum(sent), arrived))
  {
    hide Crc16.Checksum;
    var sent := Crc16.Unchecked(zeros);
    assert sent[0] == 0xFF && sent[0 := 0][0] == 0;
    UncheckedChunk(zeros, sent[0 := 0], offset);
  }

  /** Damage to at most four consecutive bytes of the staged image is always noticed at the end of the session. */
  lemma DamagedImageNoticed(s: Session, address: u32, autoReboot: bool, image: seq<byte>, k: nat)
    requires Consistent(s, address) && s.state == RECEIVING
    requires s.expectedCrc32 == Checksum(image)
    requires DifferOnlyWithin(image, s.staging[..s.totalImageSize], k, 4)
    ensures AfterEnd(s, address, autoReboot).status == OK <==> s.staging[..s.totalImageSize] == image
  {
    hide Fold, PendingBlock, BlockBody, Finalize;
    if Checksum(image) == Checksum(s.staging[..s.totalImageSize]) {
      BurstDetected(image, s.staging[..s.totalImageSize], k);
    }
  }

  /** A header the gate refuses is refused after its bytes were stored: progress has advanced and the session goes on,
      so an end request can still make it READY. */
  lemma RefusedHeaderIsStored(s: Session, ctrl: Controller, req: DataRequest)
    requires Consistent(s, 0) && s.state == RECEIVING && req.WellFormed() && !Overruns(s, req)
    requires ChunkInBounds(s, req) && ChunkIntact(req) && HasHeaderRange(req.offset + |req.chunk|)
    requires HeaderVerdict(Overwrite(s.staging, req.offset, req.chunk), ctrl) != OK
    ensures var o := AfterData(s, ctrl, req);
            && o.status != OK && o.session.state == RECEIVING
            && o.session.staging == Overwrite(s.staging, req.offset, req.chunk)
            && o.session.bytesWritten == req.offset + |req.chunk|
            && forall address, auto :: AfterEnd(o.session, address, auto).status == OK
                 <==> Checksum(o.session.staging[..o.session.totalImageSize]) == o.session.expectedCrc32
  {
    hide Checksum, PendingBlock, Fold, HeaderVerdict, ChunkIntact;
  }

  // ---------- abort ----------

  /** Aborting a READY session forgets it but leaves the control block armed: the bootloader still installs exactly
      the images it would have installed without the abort. */
  lemma AbortDoesNotDisarm(s: Session, address: u32)
    requires Consistent(s, address) && s.state == READY && 0x2000_0000 <= address < 0x3000_0000
    ensures var t := AfterAbort(s);
            && t.state == IDLE && !t.rebootPending
            && Addressable(t.block, |t.staging|, address)
            && Judge(t.block, t.staging, address)
               == (if HeaderInstallable(t.staging[..s.totalImageSize]) then Install else Reject)
  {
    hide Checksum, Accepts, HeaderInstallable;
    PendingBlockAccepted(s.totalImageSize, s.expectedCrc32, s.targetVersion, address);
  }

  /** An abort ends the transfer, whatever state it is in: until the next begin request every chunk and every end
      request is refused as busy, progress stays at zero, and neither staging buffer nor control block changes. */
  lemma {:induction false} AbortEndsTransfer(s: Session, address: u32, events: seq<Event>)
    requires Consistent(s, address)
    requires (AbortIsConsistent(s, address); Admissible(AfterAbort(s), address, events))
    requires forall i :: 0 <= i < |events| ==> !events[i].Begin?
    ensures Consistent(AfterAbort(s), address)
    ensures var t := Run(AfterAbort(s), address, events);
            && t.state == IDLE && t.bytesWritten == 0 && t.lastError == OK && !t.rebootPending
            && t.staging == s.staging && t.block == s.block
  {
    hide Checksum, SessionBlock, Run, Admissible;
    AbortIsConsistent(s, address);
    IdleStays(AfterAbort(s), address, events);
  }

  lemma {:induction false} IdleStays(s: Session, address: u32, events: seq<Event>)
    requires Consistent(s, address) && Admissible(s, address, events)
    requires s.state == IDLE && s.bytesWritten == 0 && s.lastError == OK && !s.rebootPending
    requires forall i :: 0 <= i < |events| ==> !events[i].Begin?
    ensures Run(s, address, events) == s
    decreases |events|
  {
    hide Consistent, Step, StepDefined;
    if events != [] {
      StepKeepsConsistent(s, address, events[0]);
      IdleStep(s, address, events[0]);
      var rest := events[1..];
      assert forall i :: 0 <= i < |rest| ==> rest[i] == events[i + 1];
      IdleStays(s, address, rest);
    }
  }

  lemma IdleStep(s: Session, address: u32, e: Event)
    requires Consistent(s, address) && StepDefined(s, e) && !e.Begin?
    requires s.state == IDLE && s.bytesWritten == 0 && s.lastError == OK && !s.rebootPending
    ensures Step(s, address, e) == s
  {
    hide Checksum, SessionBlock, Overwrite, Fold, HeaderVerdict, ChunkIntact;
  }

  lemma AbortIsConsistent(s: Session, address: u32)
    requires Consistent(s, address)
    ensures Consistent(AfterAbort(s), address)
  {
    hide Checksum, SessionBlock;
  }

  // ---------- answers, one call at a time ----------

  /** A node that has just started is idle, with nothing announced, received or due, over whatever its RAM holds. */
  lemma FreshSession(staging: seq<byte>, block: OtaControlBlock, address: u32)
    requires |staging| == 163840
    ensures var s := Fresh(staging, block);
            && Consistent(s, address)
            && s.state == IDLE && s.lastError == OK && s.totalImageSize == s.targetVersion == s.bytesWritten == 0
            && s.expectedCrc32 == 0 && s.incrementalCrc == 0xFFFF_FFFF && !s.autoReboot && !s.rebootPending
            && s.staging == staging && s.block == block
  {
    hide Checksum, SessionBlock;
  }

  /** Outside a transfer chunks and end requests are answered with busy and change nothing. */
  lemma RefusedOutsideTransfer(s: Session, address: u32, ctrl: Controller, req: DataRequest, autoReboot: bool)
    requires |s.staging| == 163840 && s.totalImageSize <= 163840 && req.WellFormed() && s.state != RECEIVING
    ensures AfterData(s, ctrl, req) == Outcome(s, ERR_BUSY)
    ensures AfterEnd(s, address, autoReboot) == Outcome(s, ERR_BUSY)
  {
    hide Checksum, ChunkIntact;
  }

  /** A begin request is refused on a node with updates switched off, and otherwise for sizes outside 1 byte to 160 KiB;
      a refusal leaves the session as it was. An accepted one starts at nothing received, with the low bit of the flags
      deciding about the reboot; the control block of an earlier session stays. */
  lemma BeginAnswered(s: Session, ctrl: Controller, req: BeginRequest)
    requires |s.staging| == 163840
    ensures var o := AfterBegin(s, ctrl, req);
            && o.status == (if ctrl.Controller? && !ctrl.otaEnabled then ERR_OTA_DISABLED
                            else if 1 <= req.imageSize <= 163840 then OK else ERR_IMAGE_TOO_LARGE)
            && (o.status != OK ==> o.session == s.(lastError := o.status))
            && (o.status == OK ==>
                  && o.session.state == RECEIVING && o.session.lastError == OK && o.session.bytesWritten == 0
                  && o.session.totalImageSize == req.imageSize && o.session.expectedCrc32 == req.imageCrc32
                  && o.session.targetVersion == req.targetVersion && o.session.incrementalCrc == 0xFFFF_FFFF
                  && (o.session.autoReboot <==> req.flags % 2 == 1) && !o.session.rebootPending
                  && o.session.block == s.block)
  {
    hide Overwrite, Fill, RoundUp256;
  }

  /** A chunk during a transfer that gets past the checks: its bytes, at its offset, and no others are stored, progress
      is its end, and the running checksum has absorbed it, whatever the header then says. */
  lemma ChunkStored(s: Session, ctrl: Controller, req: DataRequest)
    requires |s.staging| == 163840 && s.totalImageSize <= 163840 && req.WellFormed() && s.state == RECEIVING
    requires req.offset + |req.chunk| <= s.totalImageSize
    requires req.chunkCrc16 == 0 || Crc16.Checksum(req.chunk) == req.chunkCrc16
    ensures var o := AfterData(s, ctrl, req);
            && o.session.state == RECEIVING && o.session.bytesWritten == req.offset + |req.chunk|
            && o.session.incrementalCrc == Fold(s.incrementalCrc, req.chunk)
            && o.session.block == s.block
            && (forall i :: 0 <= i < 163840 ==>
                  o.session.staging[i] == if req.offset <= i < req.offset + |req.chunk| then req.chunk[i - req.offset]
                                          else s.staging[i])
  {
    hide Fold, HeaderVerdict, Crc16.Checksum;
  }

  /** The refusals in front of that, each with its own answer. */
  lemma ChunkRefusals(s: Session, ctrl: Controller, req: DataRequest)
    requires |s.staging| == 163840 && s.totalImageSize <= 163840 && req.WellFormed() && s.state == RECEIVING
    requires req.offset + |req.chunk| < TWO32
    ensures var o, end := AfterData(s, ctrl, req), req.offset + |req.chunk|;
            if end > s.totalImageSize
            then o == Outcome(s.(lastError := ERR_INVALID_PAYLOAD), ERR_INVALID_PAYLOAD)
            else if req.chunkCrc16 != 0 && Crc16.Checksum(req.chunk) != req.chunkCrc16
            then o == Outcome(s.(lastError := ERR_INVALID_CRC), ERR_INVALID_CRC)
            else o.session.bytesWritten == end && (o.status == OK || o.session.lastError == o.status)
  {
    hide Fold, HeaderVerdict, Crc16.Checksum;
  }

  /** The end of a transfer. With the announced checksum over the staged bytes the session is READY, a reboot is due
      when either request asked for it, and the control block says: "OTA1", pending, this size, checksum and version,
      from the staging buffer to 0x70000000. Without it the transfer is over as well, failed, and the control block is
      the old one. */
  lemma EndAnswered(s: Session, address: u32, autoReboot: bool)
    requires |s.staging| == 163840 && s.totalImageSize <= 163840 && s.state == RECEIVING
    ensures var o := AfterEnd(s, address, autoReboot);
            var t := o.session;
            && t.staging == s.staging && t.bytesWritten == s.bytesWritten
            && if Checksum(s.staging[..s.totalImageSize]) == s.expectedCrc32
               then && o.status == OK && t.state == READY
                    && (t.rebootPending <==> s.rebootPending || s.autoReboot || autoReboot)
                    && t.block.magic == 0x4F54_4131 && t.block.state == 1 && t.block.imageSize == s.totalImageSize
                    && t.block.imageCrc32 == s.expectedCrc32 && t.block.targetVersion == s.targetVersion
                    && t.block.stagingAddress == address && t.block.activeAddress == 0x7000_0000
                    && t.block.structCrc32 == Checksum(BlockBody(t.block))
               else && o.status == ERR_INVALID_CRC && t.state == ERROR_STATE && t.lastError == ERR_INVALID_CRC
                    && t.block == s.block && t.rebootPending == s.rebootPending
  {
    hide Checksum, BlockBody;
    var blk := OtaControlBlock(OTA_MAGIC, PENDING_INSTALL, s.totalImageSize, s.expectedCrc32, s.targetVersion, address,
                               SLOT_A_PHYSICAL_BASE, 0);
    BootloaderLaws.BodyIgnoresCrc(blk, SessionBlock(s, address));
  }

  /** After a failed end the transfer cannot be resumed: only a new begin request is heard. */
  lemma FailedEndIsFinal(s: Session, address: u32, ctrl: Controller, req: DataRequest, autoReboot: bool)
    requires Consistent(s, address) && s.state == RECEIVING && req.WellFormed()
    requires Checksum(s.staging[..s.totalImageSize]) != s.expectedCrc32
    ensures var t := AfterEnd(s, address, autoReboot).session;
            AfterData(t, ctrl, req) == Outcome(t, ERR_BUSY) && AfterEnd(t, address, autoReboot) == Outcome(t, ERR_BUSY)
  {
    hide Checksum, SessionBlock, ChunkIntact;
  }
}
