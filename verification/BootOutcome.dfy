/** What a boot does, written out in the control block's fields and the staged bytes. */
module BootOutcome {
  import opened Bytes
  import opened Crc32
  import opened Crc32Laws
  import opened OtaTypes
  import opened NorFlash
  import opened ExternalFlash
  import opened Bootloader
  import BootloaderLaws

  // ---------- what the bootloader looks at ----------

  /** A pending block of a possible size: magic "OTA1", state 1, its own checksum, 1 byte to 8 MiB. */
  predicate Pending(b: OtaControlBlock) {
    && b.magic == 0x4F54_4131 && b.state == 1 && b.structCrc32 == Checksum(BlockBody(b))
    && 0 < b.imageSize <= 0x80_0000
  }

  predicate StagedInRam(b: OtaControlBlock) {
    0x2000_0000 <= b.stagingAddress < 0x3000_0000
  }

  /** The image carries a header that is damaged, or is for another board or a newer bootloader than 1.0.0. */
  predicate HeaderRefused(image: seq<byte>) {
    && |image| >= 0x440
    && FromLe32(image[0x400..0x404]) == 0x4550_4657
    && (|| FromLeWord(image[0x43C..0x440]) != Checksum(image[0x400..0x43C])
        || FromLe16(image[0x406..0x408]) != 1
        || FromLe32(image[0x40C..0x410]) > 0x0100_0000)
  }

  lemma HeaderRefusedExactly(image: seq<byte>)
    ensures HeaderRefused(image) <==> !HeaderInstallable(image)
  {
    hide FromLe16, FromLe32, FromLeWord, Checksum;
    if |image| >= 0x440 {
      SliceOfSlice(image, 0x400, 0x440, 0, 4);
      SliceOfSlice(image, 0x400, 0x440, 6, 8);
      SliceOfSlice(image, 0x400, 0x440, 12, 16);
      SliceOfSlice(image, 0x400, 0x440, 60, 64);
      SliceOfSlice(image, 0x400, 0x440, 0, 60);
    }
  }

  // ---------- what it does ----------

  /** Without a pending block nothing happens: flash and block stay, and the boot is an ordinary one. */
  lemma NothingPending(b: OtaControlBlock, staging: seq<byte>, address: u32, cells: seq<byte>, script: seq<CallResult>)
    requires CanBoot(b, |staging|, address, |cells|) && !Pending(b)
    ensures Boot(b, staging, address, cells, script) == BootRun(cells, b, POWER_ON)
  {
    hide Checksum, BlockBody, HeaderInstallable, InstallAndVerify;
  }

  /** A pending image is thrown away, block cleared, flash untouched, fault recorded, exactly when its checksum is not
      the block's or its header is refused; any other is installed, or stays pending when the flash fails. */
  lemma PendingOutcome(b: OtaControlBlock, staging: seq<byte>, address: u32, cells: seq<byte>, script: seq<CallResult>)
    requires CanBoot(b, |staging|, address, |cells|) && Pending(b) && StagedInRam(b)
    ensures b.imageSize <= |staging|
    ensures var r := Boot(b, staging, address, cells, script);
            var image := staging[..b.imageSize];
            && b != CLEARED_BLOCK
            && if Checksum(image) != b.imageCrc32 || HeaderRefused(image)
               then r == BootRun(cells, CLEARED_BLOCK, FAULT)
               else (r.block == CLEARED_BLOCK && r.reason == OTA_UPDATE) || (r.block == b && r.reason == FAULT)
  {
    hide Checksum, BlockBody, HeaderInstallable, InstallAndVerify, HeaderRefused;
    HeaderRefusedExactly(staging[..b.imageSize]);
  }

  /** So a fault with a cleared block says what was wrong, and nothing else says it. */
  lemma ThrownAwayExactly(b: OtaControlBlock, staging: seq<byte>, address: u32, cells: seq<byte>,
                          script: seq<CallResult>)
    requires CanBoot(b, |staging|, address, |cells|) && Pending(b) && StagedInRam(b)
    ensures b.imageSize <= |staging|
    ensures Boot(b, staging, address, cells, script) == BootRun(cells, CLEARED_BLOCK, FAULT)
       <==> Checksum(staging[..b.imageSize]) != b.imageCrc32 || HeaderRefused(staging[..b.imageSize])
  {
    hide Checksum, Boot, Pending, HeaderRefused, CanBoot;
    PendingOutcome(b, staging, address, cells, script);
  }

  /** A block that names no RAM and a checksum that is not zero is thrown away unseen. */
  lemma NotInRamThrownAway(b: OtaControlBlock, staging: seq<byte>, address: u32, cells: seq<byte>,
                           script: seq<CallResult>)
    requires CanBoot(b, |staging|, address, |cells|) && Pending(b) && !StagedInRam(b)
    ensures b.imageCrc32 != 0
    ensures Boot(b, staging, address, cells, script) == BootRun(cells, CLEARED_BLOCK, FAULT)
  {
    hide Checksum, BlockBody, HeaderInstallable, InstallAndVerify;
  }

  /** Staged bytes damaged within four consecutive bytes since the block was written are always thrown away. */
  lemma DamagedStagingThrownAway(b: OtaControlBlock, intact: seq<byte>, staging: seq<byte>, address: u32,
                                 cells: seq<byte>, script: seq<CallResult>, k: nat)
    requires CanBoot(b, |staging|, address, |cells|) && Pending(b) && StagedInRam(b)
    requires b.imageSize <= |staging| && Checksum(intact) == b.imageCrc32
    requires DifferOnlyWithin(intact, staging[..b.imageSize], k, 4) && intact != staging[..b.imageSize]
    ensures Boot(b, staging, address, cells, script) == BootRun(cells, CLEARED_BLOCK, FAULT)
  {
    hide Checksum, Boot, Pending, HeaderRefused, CanBoot;
    PendingOutcome(b, staging, address, cells, script);
    if Checksum(intact) == Checksum(staging[..b.imageSize]) {
      BurstDetected(intact, staging[..b.imageSize], k);
      assert false;
    }
  }

  /** A cleared block is 32 zero bytes, and the boot after the one that cleared it finds nothing pending. */
  lemma ClearedBlock(staging: seq<byte>, address: u32, cells: seq<byte>, script: seq<CallResult>)
    ensures BlockBody(CLEARED_BLOCK) + LeWord(CLEARED_BLOCK.structCrc32) == seq(32, _ => 0)
    ensures CanBoot(CLEARED_BLOCK, |staging|, address, |cells|)
    ensures Boot(CLEARED_BLOCK, staging, address, cells, script) == BootRun(cells, CLEARED_BLOCK, POWER_ON)
  {
    hide Checksum, InstallAndVerify, HeaderInstallable;
    ZeroWords();
  }

  lemma ZeroWords()
    ensures Le32(0) == LeWord(0) == [0, 0, 0, 0]
  {}

  // ---------- the boot record ----------

  /** The record of a boot: magic "BOOT", bootloader 1.0.0, the reason's code, slot A, first boot. */
  lemma RecordWritten(reason: BootReason)
    ensures var info := MakeBootInfo(reason);
            && info.magic == 0x424F_4F54 && info.bootloaderVersion == 0x0100_0000
            && info.bootReason == (match reason {
                 case POWER_ON => 0 case SOFT_RESET => 1 case OTA_UPDATE => 2 case FAULT => 3 case WATCHDOG => 4 })
            && info.activeSlot == 0 && info.bootCount == 1 && info.reserved0 == info.reserved1 == 0
            && info.structCrc32 == Checksum(InfoBody(info))
  {
    hide Checksum, InfoBody;
    BootloaderLaws.InfoBodyIgnoresCrc(reason);
  }

  lemma InfoFieldsAt(b: BootInfo)
    ensures var s := InfoBody(b);
            && |s| == 28 && s[0..4] == Le32(b.magic) && s[4..8] == Le32(b.bootloaderVersion)
            && s[8..12] == Le32(b.bootReason) && s[12..16] == Le32(b.activeSlot) && s[16..20] == Le32(b.bootCount)
            && s[20..24] == Le32(b.reserved0) && s[24..28] == Le32(b.reserved1)
  {
    hide Le32;
  }

  lemma InfoBodyDetermines(a: BootInfo, b: BootInfo)
    requires InfoBody(a) == InfoBody(b)
    ensures b == a.(structCrc32 := b.structCrc32)
  {
    hide InfoBody, Le32, FromLe32;
    InfoFieldsAt(a);
    InfoFieldsAt(b);
    Le32RoundTrip(a.magic);
    Le32RoundTrip(b.magic);
    Le32RoundTrip(a.bootloaderVersion);
    Le32RoundTrip(b.bootloaderVersion);
    Le32RoundTrip(a.bootReason);
    Le32RoundTrip(b.bootReason);
    Le32RoundTrip(a.activeSlot);
    Le32RoundTrip(b.activeSlot);
    Le32RoundTrip(a.bootCount);
    Le32RoundTrip(b.bootCount);
    Le32RoundTrip(a.reserved0);
    Le32RoundTrip(b.reserved0);
    Le32RoundTrip(a.reserved1);
    Le32RoundTrip(b.reserved1);
  }

  ghost predicate RecordsDifferInOne(a: BootInfo, b: BootInfo) {
    || b == a.(magic := b.magic)
    || b == a.(bootloaderVersion := b.bootloaderVersion)
    || b == a.(bootReason := b.bootReason)
    || b == a.(activeSlot := b.activeSlot)
    || b == a.(bootCount := b.bootCount)
    || b == a.(reserved0 := b.reserved0)
    || b == a.(reserved1 := b.reserved1)
    || b == a.(structCrc32 := b.structCrc32)
  }

  lemma OneRecordField(a: BootInfo, b: BootInfo) returns (k: nat)
    requires RecordsDifferInOne(a, b)
    ensures DifferOnlyWithin(InfoBody(a), InfoBody(b), k, 4)
    ensures b == a.(structCrc32 := b.structCrc32) ==> InfoBody(a) == InfoBody(b)
  {
    hide Le32;
    k := if b == a.(magic := b.magic) then 0
         else if b == a.(bootloaderVersion := b.bootloaderVersion) then 4
         else if b == a.(bootReason := b.bootReason) then 8
         else if b == a.(activeSlot := b.activeSlot) then 12
         else if b == a.(bootCount := b.bootCount) then 16
         else if b == a.(reserved0 := b.reserved0) then 20
         else 24;
  }

  /** The firmware takes the version from a valid record; with any one field changed it falls back to 1.0.0. */
  lemma ChangedRecordFallsBack(a: BootInfo, b: BootInfo)
    requires a.IsValid() && b != a && RecordsDifferInOne(a, b)
    ensures BootloaderLaws.NodeBootloaderVersion(a) == a.bootloaderVersion
    ensures BootloaderLaws.NodeBootloaderVersion(b) == 0x0100_0000
  {
    hide InfoBody, Checksum;
    var k := OneRecordField(a, b);
    if b.IsValid() {
      BurstDetected(InfoBody(a), InfoBody(b), k);
      InfoBodyDetermines(a, b);
      assert false;
    }
  }

  // ---------- versions ----------

  /** Packed versions compare as the versions do, component by component. */
  lemma VersionsCompare(a: u8, b: u8, c: u8, d: u8, e: u8, f: u8, g: u8, h: u8)
    ensures MakeVersion(a, b, c, d) < MakeVersion(e, f, g, h)
       <==> a < e || (a == e && (b < f || (b == f && (c < g || (c == g && d < h)))))
  {}
}
