/** The firmware's OTA service: an object that updates its session fields, the RAM staging buffer and the
    RAM control block in place. */
module OtaService {
  import opened Bytes
  import Crc32
  import Crc16
  import opened OtaTypes
  import opened OtaSession
  import opened Bootloader

  /** The system controller is consulted through the argument sysCtrl: what it answers at the time of the call. */
  class Service {
    const ram: Ram
    var state: State
    var lastError: StatusCode
    var totalImageSize: u32
    var expectedCrc32: bv32
    var targetVersion: u32
    var bytesWritten: u32
    var incrementalCrc: bv32
    var autoReboot: bool
    var rebootPending: bool

    ghost function View(): Session
      reads this, ram, ram.staging
    {
      Session(state, lastError, totalImageSize, expectedCrc32, targetVersion, bytesWritten, incrementalCrc,
              autoReboot, rebootPending, ram.staging[..], ram.controlBlock)
    }

    ghost predicate Valid()
      reads this, ram, ram.staging
    {
      Consistent(View(), ram.stagingAddress)
    }

    constructor (ram: Ram)
      requires ram.staging.Length == MAX_IMAGE_SIZE
      ensures Valid() && this.ram == ram
      ensures View() == Fresh(ram.staging[..], ram.controlBlock)
    {
      this.ram := ram;
      state := IDLE;
      lastError := OK;
      totalImageSize := 0;
      expectedCrc32 := 0;
      targetVersion := 0;
      bytesWritten := 0;
      incrementalCrc := Crc32.INITIAL_REMAINDER;
      autoReboot := false;
      rebootPending := false;
    }

    method HandleBegin(sysCtrl: Controller, req: BeginRequest) returns (status: StatusCode, chunkSizeAck: nat,
                       maxImageSizeKb: nat)
      requires Valid()
      modifies this, ram.staging
      ensures Valid()
      ensures Outcome(View(), status) == AfterBegin(old(View()), sysCtrl, req)
      ensures status == OK ==> chunkSizeAck == 1024 && maxImageSizeKb == 160
    {
      hide Consistent, Crc32.Checksum, SessionBlock, Overwrite, Fill;
      BeginKeepsConsistent(View(), ram.stagingAddress, sysCtrl, req);
      chunkSizeAck, maxImageSizeKb := 0, 0;
      if sysCtrl.Controller? && !sysCtrl.otaEnabled {
        lastError := ERR_OTA_DISABLED;
        return lastError, chunkSizeAck, maxImageSizeKb;
      }
      if req.imageSize == 0 || req.imageSize > MAX_IMAGE_SIZE {
        lastError := ERR_IMAGE_TOO_LARGE;
        return lastError, chunkSizeAck, maxImageSizeKb;
      }
      ConsistentShape(View(), ram.stagingAddress);
      totalImageSize := req.imageSize;
      expectedCrc32 := req.imageCrc32;
      targetVersion := req.targetVersion;
      bytesWritten := 0;
      incrementalCrc := Crc32.INITIAL_REMAINDER;
      autoReboot := req.flags % 2 == 1;
      rebootPending := false;
      lastError := OK;
      ResetStaging(RoundUp256(totalImageSize));
      state := RECEIVING;
      return OK, CHUNK_SIZE_ACK, MAX_IMAGE_SIZE / 1024;
    }

    method HandleData(sysCtrl: Controller, req: DataRequest) returns (status: StatusCode)
      requires Valid() && req.WellFormed() && !Overruns(View(), req)
      modifies this, ram.staging
      ensures Valid()
      ensures Outcome(View(), status) == AfterData(old(View()), sysCtrl, req)
    {
      hide Consistent, Crc32.Checksum, SessionBlock, Crc32.Fold, Crc16.Fold, HeaderVerdict, Overwrite;
      ConsistentShape(View(), ram.stagingAddress);
      DataKeepsConsistent(View(), ram.stagingAddress, sysCtrl, req);
      if state != RECEIVING {
        return ERR_BUSY;
      }
      if Wrap32(req.offset + |req.chunk|) > totalImageSize {
        lastError := ERR_INVALID_PAYLOAD;
        return lastError;
      }
      if req.chunkCrc16 != 0 {
        var calcCrc16 := Crc16.Ccitt(req.chunk);
        if calcCrc16 != req.chunkCrc16 {
          lastError := ERR_INVALID_CRC;
          return lastError;
        }
      }
      Memcpy(ram.staging, req.offset, req.chunk);
      incrementalCrc := Crc32.Update(incrementalCrc, req.chunk);
      bytesWritten := req.offset + |req.chunk|;
      var verdict := InspectHeader(sysCtrl);
      if verdict != OK {
        lastError := verdict;
      }
      return verdict;
    }

    /** The first checks of handleData alone, for a chunk that is refused by them. */
    method RefuseOverlong(offset: u32, length: u16) returns (status: StatusCode)
      requires Valid()
      requires View().state == RECEIVING ==> Wrap32(offset + length) > View().totalImageSize
      modifies this`lastError
      ensures Valid()
      ensures Outcome(View(), status)
           == if old(View()).state != RECEIVING then Outcome(old(View()), ERR_BUSY)
              else Outcome(old(View()).(lastError := ERR_INVALID_PAYLOAD), ERR_INVALID_PAYLOAD)
    {
      hide Crc32.Checksum, SessionBlock;
      if state != RECEIVING {
        return ERR_BUSY;
      }
      lastError := ERR_INVALID_PAYLOAD;
      return lastError;
    }

    /** memset(staging, 0xFF, n) */
    method ResetStaging(n: nat)
      requires n <= ram.staging.Length
      modifies ram.staging
      ensures ram.staging[..] == Overwrite(old(ram.staging[..]), 0, Fill(0xFF, n))
    {
      forall i | 0 <= i < n {
        ram.staging[i] := 0xFF;
      }
    }

    /** The early look at the embedded header, once its range has been received. */
    method InspectHeader(sysCtrl: Controller) returns (verdict: StatusCode)
      requires ram.staging.Length == MAX_IMAGE_SIZE
      ensures verdict == if HasHeaderRange(bytesWritten) then HeaderVerdict(ram.staging[..], sysCtrl) else OK
    {
      hide Crc32.Checksum, HeaderAt;
      if HasHeaderRange(bytesWritten) {
        var appHdr := HeaderAt(ram.staging[..]);
        if appHdr.magic == EPFW_MAGIC {
          if !appHdr.IsValid() {
            return ERR_INVALID_CRC;
          }
          if sysCtrl.Controller? && appHdr.boardId != sysCtrl.boardId {
            return ERR_INCOMPATIBLE_BOARD;
          }
          if sysCtrl.Controller? && sysCtrl.bootloaderVersion < appHdr.minBootloaderVersion {
            return ERR_INCOMPATIBLE_BOOTLOADER;
          }
        }
      }
      return OK;
    }

    method HandleEnd(reqAutoReboot: bool) returns (status: StatusCode)
      requires Valid()
      modifies this, ram`controlBlock
      ensures Valid()
      ensures Outcome(View(), status) == AfterEnd(old(View()), ram.stagingAddress, reqAutoReboot)
    {
      hide Consistent, Crc32.Checksum, PendingBlock;
      ConsistentShape(View(), ram.stagingAddress);
      EndKeepsConsistent(View(), ram.stagingAddress, reqAutoReboot);
      if state != RECEIVING {
        return ERR_BUSY;
      }
      state := VERIFYING;
      var bufferCrc32 := Crc32.Calculate(ram.staging[..totalImageSize]);
      if bufferCrc32 != expectedCrc32 {
        state := ERROR_STATE;
        lastError := ERR_INVALID_CRC;
        return lastError;
      }
      WriteControlBlock();
      state := READY;
      if autoReboot || reqAutoReboot {
        rebootPending := true;
      }
      return OK;
    }

    method WriteControlBlock()
      modifies ram`controlBlock
      ensures ram.controlBlock == PendingBlock(totalImageSize, expectedCrc32, targetVersion, ram.stagingAddress)
    {
      var blk := OtaControlBlock(OTA_MAGIC, PENDING_INSTALL, totalImageSize, expectedCrc32, targetVersion,
                                 ram.stagingAddress, SLOT_A_PHYSICAL_BASE, 0);
      hide Crc32.Fold, BlockBody;
      var crc := Crc32.Calculate(BlockBody(blk));
      ram.controlBlock := blk.(structCrc32 := crc);
    }

    method HandleAbort() returns (status: StatusCode)
      requires Valid()
      modifies this
      ensures Valid() && status == OK
      ensures View() == AfterAbort(old(View()))
    {
      hide Crc32.Checksum, SessionBlock;
      state := IDLE;
      lastError := OK;
      bytesWritten := 0;
      rebootPending := false;
      return OK;
    }

    method GetStatus() returns (written: u32, total: u32, st: State, error: StatusCode)
      requires Valid()
      ensures written == bytesWritten && total == totalImageSize && st == state && error == lastError
      ensures written <= total <= MAX_IMAGE_SIZE && st != VERIFYING
    {
      hide Crc32.Checksum, SessionBlock;
      return bytesWritten, totalImageSize, state, lastError;
    }
  }

  lemma ConsistentShape(s: Session, address: u32)
    requires Consistent(s, address)
    ensures |s.staging| == MAX_IMAGE_SIZE && s.bytesWritten <= s.totalImageSize <= MAX_IMAGE_SIZE
  {
    hide Crc32.Checksum, SessionBlock;
  }
}
