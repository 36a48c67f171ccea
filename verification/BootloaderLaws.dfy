/** What the bootloader guarantees: which control blocks get through, what a reported update means for
    the flash, and that a failed or interrupted install can simply be run again. */
module BootloaderLaws {
  import opened Bytes
  import opened Crc32
  import opened Crc32Laws
  import opened OtaTypes
  import opened NorFlash
  import opened ExternalFlash
  import opened Bootloader

  // ---------- control block handover ----------

  ghost predicate DifferInOneField(a: OtaControlBlock, b: OtaControlBlock) {
    || b == a.(magic := b.magic)
    || b == a.(state := b.state)
    || b == a.(imageSize := b.imageSize)
    || b == a.(imageCrc32 := b.imageCrc32)
    || b == a.(targetVersion := b.targetVersion)
    || b == a.(stagingAddress := b.stagingAddress)
    || b == a.(activeAddress := b.activeAddress)
    || b == a.(structCrc32 := b.structCrc32)
  }

  lemma FieldsOf(b: OtaControlBlock)
    ensures var s := BlockBody(b);
            && s[0..4] == Le32(b.magic) && s[4..8] == Le32(b.state) && s[8..12] == Le32(b.imageSize)
            && s[12..16] == LeWord(b.imageCrc32) && s[16..20] == Le32(b.targetVersion)
            && s[20..24] == Le32(b.stagingAddress) && s[24..28] == Le32(b.activeAddress)
  {
    hide Le32, LeWord;
  }

  lemma BodyDeterminesFields(a: OtaControlBlock, b: OtaControlBlock)
    requires BlockBody(a) == BlockBody(b)
    ensures b == a.(structCrc32 := b.structCrc32)
  {
    hide BlockBody, Le32, LeWord, FromLe32, FromLeWord;
    FieldsOf(a);
    FieldsOf(b);
    Le32RoundTrip(a.magic);
    Le32RoundTrip(b.magic);
    Le32RoundTrip(a.state);
    Le32RoundTrip(b.state);
    Le32RoundTrip(a.imageSize);
    Le32RoundTrip(b.imageSize);
    LeWordRoundTrip(a.imageCrc32);
    LeWordRoundTrip(b.imageCrc32);
    Le32RoundTrip(a.targetVersion);
    Le32RoundTrip(b.targetVersion);
    Le32RoundTrip(a.stagingAddress);
    Le32RoundTrip(b.stagingAddress);
    Le32RoundTrip(a.activeAddress);
    Le32RoundTrip(b.activeAddress);
  }

  /** A change of one field reaches only that field's four bytes. */
  lemma OneFieldIsOneWord(a: OtaControlBlock, b: OtaControlBlock) returns (k: nat)
    requires DifferInOneField(a, b)
    ensures DifferOnlyWithin(BlockBody(a), BlockBody(b), k, 4)
  {
    hide Le32, LeWord;
    k := if b == a.(magic := b.magic) then 0
         else if b == a.(state := b.state) then 4
         else if b == a.(imageSize := b.imageSize) then 8
         else if b == a.(imageCrc32 := b.imageCrc32) then 12
         else if b == a.(targetVersion := b.targetVersion) then 16
         else if b == a.(stagingAddress := b.stagingAddress) then 20
         else 24;
  }

  /** Changing any single 32-bit field of an accepted block makes the bootloader ignore it. */
  lemma ChangedFieldRejected(a: OtaControlBlock, b: OtaControlBlock)
    requires Accepts(a) && b != a && DifferInOneField(a, b)
    ensures !Accepts(b)
  {
    hide BlockBody, Checksum;
    var k := OneFieldIsOneWord(a, b);
    if Accepts(b) {
      if b == a.(structCrc32 := b.structCrc32) {
        BodyIgnoresCrc(a, b);
      } else {
        BurstDetected(BlockBody(a), BlockBody(b), k);
        BodyDeterminesFields(a, b);
      }
    }
  }

  lemma BodyIgnoresCrc(a: OtaControlBlock, b: OtaControlBlock)
    requires b == a.(structCrc32 := b.structCrc32)
    ensures BlockBody(a) == BlockBody(b)
  {
    hide Le32, LeWord;
  }

  // ---------- what a reported update means ----------

  lemma {:induction false} HonestReadBack(cells: seq<byte>, size: nat, offset: nat, crc: bv32, script: seq<CallResult>)
    requires offset <= size <= |cells| && NoSilentFaults(script)
    requires crc == Fold(INITIAL_REMAINDER, cells[..offset])
    ensures var v := ReadAll(cells, size, offset, crc, script);
            && (v.ok ==> v.crc == Fold(INITIAL_REMAINDER, cells[..size]))
            && (NoFaults(script) ==> v.ok)
    decreases size - offset
  {
    hide Fold;
    if offset < size && !NextResult(script).Failed? {
      var e := CopyEnd(size, offset);
      FoldConcat(INITIAL_REMAINDER, cells[..offset], cells[offset..e]);
      assert cells[..e] == cells[..offset] + cells[offset..e];
      HonestReadBack(cells, size, e, Fold(crc, cells[offset..e]), RestOf(script));
    }
  }

  lemma ReadBackIsChecksum(cells: seq<byte>, size: nat, script: seq<CallResult>)
    requires size <= |cells| && NoSilentFaults(script)
    ensures var v := ReadAll(cells, size, 0, INITIAL_REMAINDER, script);
            && (v.ok ==> Finalize(v.crc) == Checksum(cells[..size]))
            && (NoFaults(script) ==> v.ok)
  {
    hide Fold, ReadAll, Finalize;
    assert cells[..0] == [];
    FoldEmpty(INITIAL_REMAINDER);
    HonestReadBack(cells, size, 0, INITIAL_REMAINDER, script);
  }

  lemma InstalledPrefix(cells: seq<byte>, image: seq<byte>)
    requires RoundUpSector(|image|) <= |cells|
    ensures |image| <= |cells| && Installed(cells, image)[..|image|] == image
  {
    RoundUpSectorBounds(|image|);
  }

  lemma HonestInstall(cells: seq<byte>, image: seq<byte>, crc: bv32, script: seq<CallResult>)
    requires RoundUpSector(|image|) <= |cells| && NoSilentFaults(script) && Checksum(image) == crc
    ensures var r := InstallAndVerify(cells, image, crc, script);
            && (r.verified ==> r.cells == Installed(cells, image))
            && (NoFaults(script) ==> r.verified)
  {
    hide Installed, InstallOps, Checksum, Finalize, Exec, RoundUpSector, RunOps, ReadAll;
    InstallOpsFit(image, |cells|);
    InstallFromAnyContent(cells, image);
    InstalledPrefix(cells, image);
    HonestRun(cells, InstallOps(image), script);
    if NoFaults(script) {
      FaultlessRun(cells, InstallOps(image), script);
    }
    var r := RunOps(cells, InstallOps(image), script);
    if r.ok {
      ReadBackIsChecksum(r.cells, |image|, r.script);
    }
  }

  ghost predicate ReadsHonestly(b: OtaControlBlock, staging: seq<byte>, cells: seq<byte>, script: seq<CallResult>)
    requires b.imageSize <= |staging| && RoundUpSector(b.imageSize) <= |cells|
  {
    InstallOpsFit(staging[..b.imageSize], |cells|);
    NoSilentFaults(RunOps(cells, InstallOps(staging[..b.imageSize]), script).script)
  }

  lemma InstallVerdict(b: OtaControlBlock, staging: seq<byte>, stagingAddress: u32)
    requires Addressable(b, |staging|, stagingAddress)
    requires Judge(b, staging, stagingAddress) == Install
    ensures Accepts(b) && SizeAllowed(b) && InRam(b) && b.imageSize <= |staging|
    ensures Checksum(staging[..b.imageSize]) == b.imageCrc32 && HeaderInstallable(staging[..b.imageSize])
  {
    hide Checksum, HeaderInstallable, BlockBody;
  }

  /** On flash that never lies, OTA_UPDATE means the flash holds exactly the staged image, padded with 0xFF, and is
      otherwise untouched, whatever it held before and however many calls failed on the way. */
  lemma ReportedUpdateIsInstalled(b: OtaControlBlock, staging: seq<byte>, address: u32, cells: seq<byte>,
                                  script: seq<CallResult>)
    requires CanBoot(b, |staging|, address, |cells|) && NoSilentFaults(script)
    requires Boot(b, staging, address, cells, script).reason == OTA_UPDATE
    ensures Accepts(b) && b.imageSize <= |staging|
    ensures Boot(b, staging, address, cells, script).cells == Installed(cells, staging[..b.imageSize])
  {
    hide Judge, Installed, InstallAndVerify, Accepts, Checksum, RoundUpSector;
    InstallVerdict(b, staging, address);
    HonestInstall(cells, staging[..b.imageSize], b.imageCrc32, script);
  }

  /** On flash without faults, an image the bootloader judges fit is installed and reported. */
  lemma FaultlessBootInstalls(b: OtaControlBlock, staging: seq<byte>, address: u32, cells: seq<byte>,
                              script: seq<CallResult>)
    requires CanBoot(b, |staging|, address, |cells|) && NoFaults(script)
    requires Judge(b, staging, address) == Install
    ensures Accepts(b) && b.imageSize <= |staging|
    ensures Boot(b, staging, address, cells, script)
         == BootRun(Installed(cells, staging[..b.imageSize]), CLEARED_BLOCK, OTA_UPDATE)
  {
    hide Judge, Installed, InstallAndVerify, Accepts, Checksum, RoundUpSector;
    InstallVerdict(b, staging, address);
    HonestInstall(cells, staging[..b.imageSize], b.imageCrc32, script);
  }

  /** Even when the chip silently corrupts what it is given, OTA_UPDATE is reported only over flash whose content
      has the image's checksum; so corruption confined to four consecutive bytes is never reported as an update. */
  lemma SilentBurstNotReported(b: OtaControlBlock, staging: seq<byte>, address: u32, cells: seq<byte>,
                               script: seq<CallResult>, k: nat)
    requires CanBoot(b, |staging|, address, |cells|)
    requires Boot(b, staging, address, cells, script).reason == OTA_UPDATE
    requires b.imageSize <= |staging| && RoundUpSector(b.imageSize) <= |cells|
    requires ReadsHonestly(b, staging, cells, script)
    requires b.imageSize <= |cells|
    ensures Checksum(Boot(b, staging, address, cells, script).cells[..b.imageSize]) == Checksum(staging[..b.imageSize])
    ensures DifferOnlyWithin(staging[..b.imageSize],
                             Boot(b, staging, address, cells, script).cells[..b.imageSize], k, 4)
        ==> Boot(b, staging, address, cells, script).cells[..b.imageSize] == staging[..b.imageSize]
  {
    hide Judge, Accepts, Checksum, RoundUpSector, RunOps, ReadAll, InstallOps, Finalize;
    InstallVerdict(b, staging, address);
    var image := staging[..b.imageSize];
    InstallOpsFit(image, |cells|);
    var r := RunOps(cells, InstallOps(image), script);
    ReadBackIsChecksum(r.cells, |image|, r.script);
    var after := r.cells[..b.imageSize];
    if DifferOnlyWithin(image, after, k, 4) {
      BurstDetected(image, after, k);
    }
  }

  // ---------- what always holds ----------

  /** Without an install the flash is untouched; with one, nothing beyond the image's last sector changes, whatever
      the chip does. The control block is cleared exactly when the image was rejected or the update was reported. */
  lemma BootFrame(b: OtaControlBlock, staging: seq<byte>, address: u32, cells: seq<byte>, script: seq<CallResult>)
    requires CanBoot(b, |staging|, address, |cells|)
    ensures var r := Boot(b, staging, address, cells, script);
            && (Judge(b, staging, address) != Install ==> r.cells == cells && r.reason != OTA_UPDATE)
            && (Judge(b, staging, address) == Install ==>
                  r.reason in {OTA_UPDATE, FAULT}
                  && RoundUpSector(b.imageSize) <= |cells|
                  && r.cells[RoundUpSector(b.imageSize)..] == cells[RoundUpSector(b.imageSize)..])
            && r.block == (if r.reason == OTA_UPDATE || Judge(b, staging, address) == Reject then CLEARED_BLOCK else b)
  {
    hide Judge, Accepts, Checksum, RoundUpSector, RunOps, ReadAll, InstallOps, Finalize;
    if Judge(b, staging, address) == Install {
      InstallVerdict(b, staging, address);
      var image := staging[..b.imageSize];
      var up := RoundUpSector(b.imageSize);
      InstallOpsFit(image, |cells|);
      InstallOpsFit(image, up);
      RunKeepsTail(cells, InstallOps(image), script, up);
    }
  }

  lemma InstalledDependsOnTail(cells: seq<byte>, other: seq<byte>, image: seq<byte>)
    requires RoundUpSector(|image|) <= |cells| == |other|
    requires cells[RoundUpSector(|image|)..] == other[RoundUpSector(|image|)..]
    ensures Installed(cells, image) == Installed(other, image)
  {}

  /** Boot attempts in a row over the same RAM, each meeting its own faults, until one of them clears the block. */
  function BootUntilCleared(b: OtaControlBlock, staging: seq<byte>, address: u32, cells: seq<byte>,
                            scripts: seq<seq<CallResult>>): (r: BootRun)
    requires CanBoot(b, |staging|, address, |cells|) && scripts != []
    ensures |r.cells| == |cells|
    decreases |scripts|
  {
    var r := Boot(b, staging, address, cells, scripts[0]);
    if r.block != b || |scripts| == 1 then r
    else BootUntilCleared(b, staging, address, r.cells, scripts[1..])
  }

  /** An accepted image survives any number of failed installs: once an attempt reports the update, the flash is what
      a first undisturbed install would have left; and an attempt without faults always gets there. */
  lemma {:induction false} RetriesConverge(b: OtaControlBlock, staging: seq<byte>, address: u32, cells: seq<byte>,
                                           scripts: seq<seq<CallResult>>)
    requires CanBoot(b, |staging|, address, |cells|) && scripts != []
    requires Judge(b, staging, address) == Install
    requires forall i :: 0 <= i < |scripts| ==> NoSilentFaults(scripts[i])
    ensures Accepts(b) && b.imageSize <= |staging| && RoundUpSector(b.imageSize) <= |cells|
    ensures var r := BootUntilCleared(b, staging, address, cells, scripts);
            && (r.reason == OTA_UPDATE ==>
                  r.cells == Installed(cells, staging[..b.imageSize]) && r.block == CLEARED_BLOCK)
            && (r.reason != OTA_UPDATE ==> r.block == b && r.reason == FAULT)
            && (NoFaults(scripts[|scripts| - 1]) ==> r.reason == OTA_UPDATE)
    decreases |scripts|
  {
    hide Boot, Judge, Accepts, Installed, RoundUpSector, NoFaults, NoSilentFaults;
    InstallVerdict(b, staging, address);
    var image := staging[..b.imageSize];
    var r := Boot(b, staging, address, cells, scripts[0]);
    BootFrame(b, staging, address, cells, scripts[0]);
    AcceptedIsNotCleared(b);
    if r.reason == OTA_UPDATE {
      ReportedUpdateIsInstalled(b, staging, address, cells, scripts[0]);
    } else {
      if NoFaults(scripts[0]) {
        FaultlessBootInstalls(b, staging, address, cells, scripts[0]);
      }
      if |scripts| > 1 {
        RetriesConverge(b, staging, address, r.cells, scripts[1..]);
        InstalledDependsOnTail(cells, r.cells, image);
      }
    }
  }

  lemma {:induction false} AttemptsKeepTail(cells: seq<byte>, ops: seq<Op>, cuts: seq<nat>, limit: nat)
    requires AllFit(ops, |cells|) && AllFit(ops, limit) && limit <= |cells| && AllCuts(cuts, |ops|)
    ensures AfterAttempts(cells, ops, cuts)[limit..] == cells[limit..]
    decreases |cuts|
  {
    hide Exec;
    if cuts != [] {
      ExecKeepsTail(cells, ops[..cuts[0]], limit);
      AttemptsKeepTail(Exec(cells, ops[..cuts[0]]), ops, cuts[1..], limit);
    }
  }

  /** Power may fail between any two flash operations, any number of times: as long as the RAM survives, a later boot
      that reports the update leaves what a single undisturbed install of the original flash would have left. */
  lemma BootAfterInterruptions(b: OtaControlBlock, staging: seq<byte>, address: u32, cells: seq<byte>,
                               cuts: seq<nat>, script: seq<CallResult>)
    requires CanBoot(b, |staging|, address, |cells|) && NoSilentFaults(script)
    requires Judge(b, staging, address) == Install
    requires b.imageSize <= |staging| && AllCuts(cuts, |InstallOps(staging[..b.imageSize])|)
    ensures AllFit(InstallOps(staging[..b.imageSize]), |cells|) && RoundUpSector(b.imageSize) <= |cells|
    ensures var r := Boot(b, staging, address, AfterAttempts(cells, InstallOps(staging[..b.imageSize]), cuts), script);
            && (r.reason == OTA_UPDATE ==> r.cells == Installed(cells, staging[..b.imageSize]))
            && (NoFaults(script) ==> r.reason == OTA_UPDATE)
  {
    hide Boot, Judge, Accepts, Installed, RoundUpSector, InstallOps, NoFaults, NoSilentFaults, AllFit, AllCuts;
    InstallVerdict(b, staging, address);
    var image := staging[..b.imageSize];
    var up := RoundUpSector(b.imageSize);
    InstallOpsFit(image, |cells|);
    InstallOpsFit(image, up);
    var disturbed := AfterAttempts(cells, InstallOps(image), cuts);
    AttemptsKeepTail(cells, InstallOps(image), cuts, up);
    InstalledDependsOnTail(cells, disturbed, image);
    if Boot(b, staging, address, disturbed, script).reason == OTA_UPDATE {
      ReportedUpdateIsInstalled(b, staging, address, disturbed, script);
    }
    if NoFaults(script) {
      FaultlessBootInstalls(b, staging, address, disturbed, script);
    }
  }

  lemma AcceptedIsNotCleared(b: OtaControlBlock)
    requires Accepts(b)
    ensures b != CLEARED_BLOCK
  {
    hide Checksum, BlockBody;
  }

  // ---------- handover to the firmware ----------

  /** The bootloader version the firmware's system controller works with after start-up. */
  function NodeBootloaderVersion(info: BootInfo): u32 {
    if info.IsValid() then info.bootloaderVersion else MakeVersion(1, 0, 0, 0)
  }

  /** Whatever path the bootloader took, the record it leaves is valid and carries its version; without a valid
      record the firmware assumes the same version. */
  lemma HandoverCarriesVersion(info: BootInfo, reason: BootReason)
    requires info == MakeBootInfo(reason) || !info.IsValid()
    ensures NodeBootloaderVersion(info) == BOOTLOADER_VERSION
    ensures MakeBootInfo(reason).IsValid()
  {
    hide Checksum, InfoBody, ReasonCode;
    InfoBodyIgnoresCrc(reason);
  }

  lemma InfoBodyIgnoresCrc(reason: BootReason)
    ensures InfoBody(MakeBootInfo(reason))
         == InfoBody(BootInfo(BOOT_INFO_MAGIC, BOOTLOADER_VERSION, ReasonCode(reason), 0, 1, 0, 0, 0))
  {
    hide Checksum, Le32, ReasonCode;
  }
}
