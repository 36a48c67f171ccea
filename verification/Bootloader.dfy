/** The bootloader's check_and_install_ota: when it accepts a control block, when it refuses the staged
    image, and how it installs. */
module Bootloader {
  import opened Bytes
  import opened Crc32
  import opened OtaTypes
  import opened NorFlash
  import opened ExternalFlash

  const BOOTLOADER_VERSION: u32 := MakeVersion(1, 0, 0, 0)
  const NUCLEO_H7S3L8: u16 := 0x0001
  const MAX_INSTALL_SIZE := 8 * 1024 * 1024

  /** The memory that survives the soft reset between firmware and bootloader. The three regions do not overlap. */
  class Ram {
    const staging: array<byte>
    const stagingAddress: u32
    var controlBlock: OtaControlBlock
    var bootInfo: BootInfo

    constructor (staging: array<byte>, stagingAddress: u32, controlBlock: OtaControlBlock, bootInfo: BootInfo)
      ensures this.staging == staging && this.stagingAddress == stagingAddress
      ensures this.controlBlock == controlBlock && this.bootInfo == bootInfo
    {
      this.staging := staging;
      this.stagingAddress := stagingAddress;
      this.controlBlock := controlBlock;
      this.bootInfo := bootInfo;
    }
  }

  // ---------- decisions ----------

  predicate Accepts(b: OtaControlBlock) {
    b.magic == OTA_MAGIC && b.structCrc32 == Checksum(BlockBody(b)) && b.state == PENDING_INSTALL
  }

  predicate SizeAllowed(b: OtaControlBlock) {
    0 < b.imageSize <= MAX_INSTALL_SIZE
  }

  predicate InRam(b: OtaControlBlock) {
    0x2000_0000 <= b.stagingAddress < 0x3000_0000
  }

  /** The bootloader's own look at the embedded header. */
  predicate HeaderInstallable(image: seq<byte>) {
    HasHeaderRange(|image|) && HeaderAt(image).magic == EPFW_MAGIC ==>
      && HeaderAt(image).IsValid()
      && HeaderAt(image).boardId == NUCLEO_H7S3L8
      && BOOTLOADER_VERSION >= HeaderAt(image).minBootloaderVersion
  }

  datatype Verdict = NothingToDo | Reject | Install

  /** An accepted block that names RAM names the staging buffer; one that names anything else is rejected for its
      checksum, which the bootloader then takes to be zero. */
  predicate Addressable(b: OtaControlBlock, stagingSize: nat, stagingAddress: u32) {
    Accepts(b) && SizeAllowed(b) ==>
      if InRam(b) then b.stagingAddress == stagingAddress && b.imageSize <= stagingSize else b.imageCrc32 != 0
  }

  function Judge(b: OtaControlBlock, staging: seq<byte>, stagingAddress: u32): Verdict
    requires Addressable(b, |staging|, stagingAddress)
  {
    if !Accepts(b) || !SizeAllowed(b) then NothingToDo
    else if !InRam(b) then Reject
    else
      var image := staging[..b.imageSize];
      if Checksum(image) == b.imageCrc32 && HeaderInstallable(image) then Install else Reject
  }

  // ---------- the run as a function ----------

  datatype ReadRun = ReadRun(crc: bv32, ok: bool, script: seq<CallResult>)

  /** Reading the installed bytes back, 1024 at a time. */
  function ReadAll(cells: seq<byte>, size: nat, offset: nat, crc: bv32, script: seq<CallResult>): ReadRun
    requires offset <= size <= |cells|
    decreases size - offset
  {
    if offset == size then ReadRun(crc, true, script)
    else if NextResult(script).Failed? then ReadRun(crc, false, RestOf(script))
    else
      var e := CopyEnd(size, offset);
      ReadAll(cells, size, e, Fold(crc, ReadBack(cells, offset, e - offset, NextResult(script))), RestOf(script))
  }

  datatype InstallRun = InstallRun(cells: seq<byte>, script: seq<CallResult>, verified: bool)

  function InstallAndVerify(cells: seq<byte>, image: seq<byte>, imageCrc32: bv32, script: seq<CallResult>)
      : (r: InstallRun)
    requires RoundUpSector(|image|) <= |cells|
    ensures |r.cells| == |cells|
  {
    InstallOpsFit(image, |cells|);
    RoundUpSectorBounds(|image|);
    var r := RunOps(cells, InstallOps(image), script);
    if !r.ok then InstallRun(r.cells, r.script, false)
    else
      var v := ReadAll(r.cells, |image|, 0, INITIAL_REMAINDER, r.script);
      InstallRun(r.cells, v.script, v.ok && Finalize(v.crc) == imageCrc32)
  }

  function MakeBootInfo(reason: BootReason): BootInfo {
    var info := BootInfo(BOOT_INFO_MAGIC, BOOTLOADER_VERSION, ReasonCode(reason), 0, 1, 0, 0, 0);
    info.(structCrc32 := Checksum(InfoBody(info)))
  }

  datatype BootRun = BootRun(cells: seq<byte>, block: OtaControlBlock, reason: BootReason)

  predicate CanBoot(b: OtaControlBlock, stagingSize: nat, stagingAddress: u32, flashSize: nat) {
    && Addressable(b, stagingSize, stagingAddress)
    && (Accepts(b) && SizeAllowed(b) ==> RoundUpSector(b.imageSize) <= flashSize)
  }

  function Boot(b: OtaControlBlock, staging: seq<byte>, stagingAddress: u32, cells: seq<byte>, script: seq<CallResult>)
      : (r: BootRun)
    requires CanBoot(b, |staging|, stagingAddress, |cells|)
    ensures |r.cells| == |cells|
  {
    match Judge(b, staging, stagingAddress)
    case NothingToDo => BootRun(cells, b, POWER_ON)
    case Reject => BootRun(cells, CLEARED_BLOCK, FAULT)
    case Install =>
      var r := InstallAndVerify(cells, staging[..b.imageSize], b.imageCrc32, script);
      if r.verified then BootRun(r.cells, CLEARED_BLOCK, OTA_UPDATE) else BootRun(r.cells, b, FAULT)
  }

  // ---------- the loops ----------

  /** Steps 2 and 3: erase the covering sectors, then copy from RAM. */
  method Program(image: seq<byte>, flash: ExtMem) returns (ok: bool)
    requires RoundUpSector(|image|) <= flash.cells.Length
    modifies flash, flash.cells
    ensures AllFit(InstallOps(image), flash.cells.Length)
    ensures var r := RunOps(old(flash.cells[..]), InstallOps(image), old(flash.script));
            ok == r.ok && flash.cells[..] == r.cells && flash.script == r.script
  {
    hide AfterCall, Exec;
    ghost var cells0, script0 := flash.cells[..], flash.script;
    var eraseSize := RoundUpSector(|image|);
    RoundUpSectorBounds(|image|);
    hide RoundUpSector;
    InstallOpsFit(image, flash.cells.Length);
    EraseOpsFit(0, eraseSize, flash.cells.Length);
    ProgramOpsFit(image, 0, flash.cells.Length);
    RunConcat(cells0, EraseOps(0, eraseSize), ProgramOps(image, 0), script0);
    ok := EraseSectors(eraseSize, flash);
    if ok {
      ok := CopyImage(image, flash);
    }
  }

  method EraseSectors(eraseSize: nat, flash: ExtMem) returns (ok: bool)
    requires eraseSize % SECTOR_SIZE == 0 && eraseSize <= flash.cells.Length
    modifies flash, flash.cells
    ensures AllFit(EraseOps(0, eraseSize), flash.cells.Length)
    ensures var r := RunOps(old(flash.cells[..]), EraseOps(0, eraseSize), old(flash.script));
            ok == r.ok && flash.cells[..] == r.cells && flash.script == r.script
  {
    hide AfterCall;
    EraseOpsFit(0, eraseSize, flash.cells.Length);
    ghost var whole := RunOps(flash.cells[..], EraseOps(0, eraseSize), flash.script);
    var cur := 0;
    while cur < eraseSize
      invariant cur % SECTOR_SIZE == 0 && cur <= eraseSize
      invariant AllFit(EraseOps(cur, eraseSize), flash.cells.Length)
      invariant whole == RunOps(flash.cells[..], EraseOps(cur, eraseSize), flash.script)
    {
      assert EraseOps(cur, eraseSize)[1..] == EraseOps(cur + SECTOR_SIZE, eraseSize);
      var erased := flash.EraseSector(cur);
      if !erased {
        return false;
      }
      cur := cur + SECTOR_SIZE;
    }
    return true;
  }

  method CopyImage(image: seq<byte>, flash: ExtMem) returns (ok: bool)
    requires |image| <= flash.cells.Length
    modifies flash, flash.cells
    ensures AllFit(ProgramOps(image, 0), flash.cells.Length)
    ensures var r := RunOps(old(flash.cells[..]), ProgramOps(image, 0), old(flash.script));
            ok == r.ok && flash.cells[..] == r.cells && flash.script == r.script
  {
    hide AfterCall;
    ProgramOpsFit(image, 0, flash.cells.Length);
    ghost var whole := RunOps(flash.cells[..], ProgramOps(image, 0), flash.script);
    var offset := 0;
    while offset < |image|
      invariant offset <= |image|
      invariant AllFit(ProgramOps(image, offset), flash.cells.Length)
      invariant whole == RunOps(flash.cells[..], ProgramOps(image, offset), flash.script)
    {
      var toCopy := if |image| - offset > COPY_SIZE then COPY_SIZE else |image| - offset;
      assert ProgramOps(image, offset)[1..] == ProgramOps(image, offset + toCopy);
      var written := flash.Write(offset, image[offset..offset + toCopy]);
      if !written {
        return false;
      }
      offset := offset + toCopy;
    }
    return true;
  }

  /** Step 4: the checksum of what the flash now holds. */
  method ReadChecksum(size: nat, flash: ExtMem) returns (ok: bool, crc: bv32)
    requires size <= flash.cells.Length
    modifies flash`script
    ensures var v := ReadAll(flash.cells[..], size, 0, INITIAL_REMAINDER, old(flash.script));
            ok == v.ok && flash.script == v.script && (ok ==> crc == v.crc)
  {
    hide ReadBack, Fold;
    crc := INITIAL_REMAINDER;
    var offset := 0;
    while offset < size
      invariant offset <= size
      invariant ReadAll(flash.cells[..], size, 0, INITIAL_REMAINDER, old(flash.script))
             == ReadAll(flash.cells[..], size, offset, crc, flash.script)
    {
      var toRead := if size - offset > COPY_SIZE then COPY_SIZE else size - offset;
      var read, buffer := flash.Read(offset, toRead);
      if !read {
        return false, crc;
      }
      crc := Update(crc, buffer);
      offset := offset + toRead;
    }
    return true, crc;
  }

  method CheckAndInstallOta(ram: Ram, flash: ExtMem)
    requires ram.staging != flash.cells
    requires CanBoot(ram.controlBlock, ram.staging.Length, ram.stagingAddress, flash.cells.Length)
    modifies ram, flash, flash.cells
    ensures var r := Boot(old(ram.controlBlock), old(ram.staging[..]), ram.stagingAddress,
                          old(flash.cells[..]), old(flash.script));
            && flash.cells[..] == r.cells
            && ram.controlBlock == r.block
            && ram.bootInfo == MakeBootInfo(r.reason)
  {
    hide Checksum, BlockBody, RunOps, ReadAll, MakeBootInfo, HeaderAt, MakeVersion, RoundUpSector, InstallOps;
    var blk := ram.controlBlock;
    var foundValidBlock := false;
    if blk.magic == OTA_MAGIC {
      var expectedCrc := Calculate(BlockBody(blk));
      if blk.structCrc32 == expectedCrc && blk.state == PENDING_INSTALL {
        foundValidBlock := true;
      }
    }
    if !foundValidBlock || blk.imageSize == 0 || blk.imageSize > MAX_INSTALL_SIZE {
      ram.bootInfo := MakeBootInfo(POWER_ON);
      return;
    }
    var stagedCrc32: bv32 := 0;
    if InRam(blk) {
      stagedCrc32 := Calculate(ram.staging[..blk.imageSize]);
    }
    if stagedCrc32 != blk.imageCrc32 {
      ram.controlBlock := CLEARED_BLOCK;
      ram.bootInfo := MakeBootInfo(FAULT);
      return;
    }
    var image := ram.staging[..blk.imageSize];
    if HasHeaderRange(blk.imageSize) {
      var appHdr := HeaderAt(image);
      if appHdr.magic == EPFW_MAGIC {
        if !appHdr.IsValid() || appHdr.boardId != NUCLEO_H7S3L8 || BOOTLOADER_VERSION < appHdr.minBootloaderVersion {
          ram.controlBlock := CLEARED_BLOCK;
          ram.bootInfo := MakeBootInfo(FAULT);
          return;
        }
      }
    }
    var writeOk := Program(image, flash);
    if !writeOk {
      ram.bootInfo := MakeBootInfo(FAULT);
      return;
    }
    RoundUpSectorBounds(|image|);
    var readOk, currentCrc := ReadChecksum(|image|, flash);
    if !readOk || Finalize(currentCrc) != blk.imageCrc32 {
      ram.bootInfo := MakeBootInfo(FAULT);
      return;
    }
    ram.controlBlock := CLEARED_BLOCK;
    ram.bootInfo := MakeBootInfo(OTA_UPDATE);
  }
}
