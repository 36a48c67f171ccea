/** The host updater driving a node through a complete update, up to the flash. */
module OtaUpdater {
  import opened Bytes
  import Crc32
  import Crc16
  import opened OtaTypes
  import opened OtaSession
  import opened OtaTransfer
  import opened OtaService
  import opened NorFlash
  import opened ExternalFlash
  import opened Bootloader
  import BootloaderLaws
  import OtaSessionLaws

  /** run_ota: begin, stream the chunks in order, end. Sizes that do not fit the request cannot be packed. */
  method RunOta(svc: Service, ctrl: Controller, image: seq<byte>, targetVersion: u32,
                autoReboot: bool) returns (ok: bool)
    requires svc.Valid()
    modifies svc, svc.ram`controlBlock, svc.ram.staging
    ensures svc.Valid()
    ensures |image| >= 0x1_0000_0000 ==> !ok && svc.View() == old(svc.View())
    ensures |image| < 0x1_0000_0000 ==>
              |old(svc.ram.staging[..])| == MAX_IMAGE_SIZE
              && var o := Conversation(old(svc.View()), svc.ram.stagingAddress, ctrl, image, targetVersion, autoReboot);
                 svc.View() == o.session && (ok <==> o.status == OK)
  {
    hide Consistent, AfterBegin, AfterData, AfterEnd, Crc32.Checksum, Crc16.Fold;
    ConsistentShape(svc.View(), svc.ram.stagingAddress);
    if |image| >= 0x1_0000_0000 {
      return false;
    }
    var totalCrc32 := Crc32.Calculate(image);
    var begin := BeginRequest(|image|, totalCrc32, targetVersion, if autoReboot then 1 else 0);
    ghost var begun := AfterBegin(svc.View(), ctrl, begin);
    var status, chunkSize, _ := svc.HandleBegin(ctrl, begin);
    if status != OK {
      return false;
    }
    ConsistentShape(svc.View(), svc.ram.stagingAddress);
    AcceptedBeginFits(old(svc.View()), ctrl, begin);
    var offset := 0;
    while offset < |image|
      invariant svc.Valid() && offset <= |image|
      invariant |svc.View().staging| == MAX_IMAGE_SIZE && svc.View().totalImageSize <= MAX_IMAGE_SIZE
      invariant Transfer(begun.session, ctrl, image, 0) == Transfer(svc.View(), ctrl, image, offset)
    {
      var end := if offset + chunkSize < |image| then offset + chunkSize else |image|;
      var chunk := image[offset..end];
      var chunkCrc := Crc16.Ccitt(chunk);
      ghost var req := RequestAt(image, offset);
      assert req == DataRequest(offset, chunkCrc, chunk);
      var st := svc.HandleData(ctrl, DataRequest(offset, chunkCrc, chunk));
      if st != OK {
        return false;
      }
      ConsistentShape(svc.View(), svc.ram.stagingAddress);
      offset := offset + |chunk|;
    }
    var final := svc.HandleEnd(autoReboot);
    return final == OK;
  }

  lemma AcceptedBeginFits(s: Session, ctrl: Controller, req: BeginRequest)
    requires |s.staging| == MAX_IMAGE_SIZE && AfterBegin(s, ctrl, req).status == OK
    ensures 0 < req.imageSize <= MAX_IMAGE_SIZE && AfterBegin(s, ctrl, req).session.totalImageSize == req.imageSize
  {
    hide Overwrite;
  }

  // ---------- from the host to the flash ----------

  /** A controller that describes this board and the bootloader that will run. */
  predicate MatchesBootloader(ctrl: Controller) {
    ctrl.Controller? && ctrl.boardId == NUCLEO_H7S3L8 && ctrl.bootloaderVersion == BOOTLOADER_VERSION
  }

  /** Firmware and bootloader judge the embedded header alike. */
  lemma GatesAgree(image: seq<byte>, ctrl: Controller)
    requires MatchesBootloader(ctrl)
    ensures PassesGate(image, ctrl) <==> HeaderInstallable(image)
  {
    hide HeaderAt, Crc32.Checksum, MakeVersion;
  }

  /** In particular for the version a node works with after the bootloader's handover, whatever way that boot went, or
      without any valid record. */
  lemma GatesAgreeAfterHandover(image: seq<byte>, info: BootInfo, reason: BootReason, otaEnabled: bool)
    requires info == MakeBootInfo(reason) || !info.IsValid()
    ensures var ctrl := Controller(otaEnabled, NUCLEO_H7S3L8, BootloaderLaws.NodeBootloaderVersion(info));
            PassesGate(image, ctrl) <==> HeaderInstallable(image)
  {
    hide PassesGate, HeaderInstallable, MakeBootInfo, BootloaderLaws.NodeBootloaderVersion, MakeVersion;
    BootloaderLaws.HandoverCarriesVersion(info, reason);
    GatesAgree(image, Controller(otaEnabled, NUCLEO_H7S3L8, BootloaderLaws.NodeBootloaderVersion(info)));
  }

  lemma StagedImageIsInstallable(staging: seq<byte>, address: u32, image: seq<byte>, version: u32, flashSize: nat)
    requires 0 < |image| <= MAX_IMAGE_SIZE == |staging| && staging[..|image|] == image
    requires 0x2000_0000 <= address < 0x3000_0000
    requires RoundUpSector(|image|) <= flashSize
    ensures var b := PendingBlock(|image|, Crc32.Checksum(image), version, address);
            && CanBoot(b, |staging|, address, flashSize)
            && Judge(b, staging, address) == (if HeaderInstallable(image) then Install else Reject)
  {
    hide Crc32.Checksum, Accepts, HeaderInstallable, RoundUpSector;
    OtaSessionLaws.PendingBlockAccepted(|image|, Crc32.Checksum(image), version, address);
  }

  /** End to end: on a node that describes itself correctly, has updates enabled and fault-free flash, running the
      updater and then the bootloader installs exactly those images that fit and pass the header gate, byte for
      byte; every other image leaves the flash alone. */
  lemma EndToEnd(s: Session, address: u32, ctrl: Controller, image: seq<byte>, version: u32, autoReboot: bool,
                 cells: seq<byte>, script: seq<CallResult>)
    requires |s.staging| == MAX_IMAGE_SIZE && |image| < 0x1_0000_0000
    requires MatchesBootloader(ctrl) && ctrl.otaEnabled && NoFaults(script)
    requires 0x2000_0000 <= address < 0x3000_0000 && RoundUpSector(|image|) <= |cells|
    ensures var o := Conversation(s, address, ctrl, image, version, autoReboot);
            && (o.status == OK <==> 0 < |image| <= MAX_IMAGE_SIZE && HeaderInstallable(image))
            && (o.status == OK ==>
                  && |o.session.staging| == MAX_IMAGE_SIZE
                  && CanBoot(o.session.block, MAX_IMAGE_SIZE, address, |cells|)
                  && Boot(o.session.block, o.session.staging, address, cells, script)
                     == BootRun(Installed(cells, image), CLEARED_BLOCK, OTA_UPDATE))
  {
    hide Conversation, PassesGate, HeaderInstallable, Boot, CanBoot, Judge, Accepts, PendingBlock, Installed,
         RoundUpSector, NoFaults;
    ConversationDelivers(s, address, ctrl, image, version, autoReboot);
    GatesAgree(image, ctrl);
    var o := Conversation(s, address, ctrl, image, version, autoReboot);
    if o.status == OK {
      StagedImageIsInstallable(o.session.staging, address, image, version, |cells|);
      BootloaderLaws.FaultlessBootInstalls(o.session.block, o.session.staging, address, cells, script);
      BlockSize(|image|, Crc32.Checksum(image), version, address);
    }
  }

  lemma BlockSize(size: u32, crc: bv32, version: u32, address: u32)
    ensures PendingBlock(size, crc, version, address).imageSize == size
  {}

  /** The same as one program: update the node, reset it, let the bootloader run. */
  method UpdateNode(svc: Service, ctrl: Controller, image: seq<byte>, targetVersion: u32,
                    flash: ExtMem) returns (ok: bool)
    requires svc.Valid() && svc.ram.staging != flash.cells
    requires MatchesBootloader(ctrl) && ctrl.otaEnabled && NoFaults(flash.script)
    requires 0x2000_0000 <= svc.ram.stagingAddress < 0x3000_0000
    requires RoundUpSector(|image|) <= flash.cells.Length
    modifies svc, svc.ram, svc.ram.staging, flash, flash.cells
    ensures ok <==> 0 < |image| <= MAX_IMAGE_SIZE && HeaderInstallable(image)
    ensures flash.cells[..] == if ok then Installed(old(flash.cells[..]), image) else old(flash.cells[..])
    ensures ok ==> svc.ram.bootInfo == MakeBootInfo(OTA_UPDATE) && svc.ram.controlBlock == CLEARED_BLOCK
  {
    hide Consistent, Conversation, HeaderInstallable, Boot, CanBoot, Installed, RoundUpSector, NoFaults, MakeBootInfo;
    ok := RunOta(svc, ctrl, image, targetVersion, true);
    if |image| < 0x1_0000_0000 {
      EndToEnd(old(svc.View()), svc.ram.stagingAddress, ctrl, image, targetVersion, true,
               flash.cells[..], flash.script);
    }
    if ok {
      CheckAndInstallOta(svc.ram, flash);
    }
  }
}
