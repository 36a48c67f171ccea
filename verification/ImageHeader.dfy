/** The 64-byte header an image carries at 0x400, laid out from its fields, and what those fields decide on the way to
    the flash. */
module ImageHeader {
  import opened Bytes
  import Crc32
  import opened OtaTypes
  import opened OtaSession
  import opened OtaTransfer
  import opened NorFlash
  import opened ExternalFlash
  import opened Bootloader
  import OtaUpdater

  datatype Fields = Fields(
    magic: u32,
    headerVersion: u16,
    boardId: u16,
    appVersion: u32,
    minBootloaderVersion: u32,
    featureFlags: u32,
    imageSize: u32,
    imageCrc32: bv32,
    buildTimestamp: u32,
    gitCommit: u32,
    reserved: seq<byte>)

  /** The first 60 bytes. */
  function FieldBytes(f: Fields): (s: seq<byte>)
    ensures |s| == 36 + |f.reserved|
  {
    Le32(f.magic) + Le16(f.headerVersion) + Le16(f.boardId) + Le32(f.appVersion) + Le32(f.minBootloaderVersion)
    + Le32(f.featureFlags) + Le32(f.imageSize) + LeWord(f.imageCrc32) + Le32(f.buildTimestamp) + Le32(f.gitCommit)
    + f.reserved
  }

  predicate CarriesHeader(image: seq<byte>, f: Fields, headerCrc32: bv32) {
    && |f.reserved| == 24
    && |image| >= 0x440
    && image[0x400..0x440] == FieldBytes(f) + LeWord(headerCrc32)
  }

  lemma FieldsAt(f: Fields)
    ensures var h := FieldBytes(f);
            h[0..4] == Le32(f.magic) && h[6..8] == Le16(f.boardId) && h[12..16] == Le32(f.minBootloaderVersion)
  {
    hide Le16, Le32, LeWord;
  }

  /** What firmware and bootloader read of it. */
  lemma HeaderRead(image: seq<byte>, f: Fields, headerCrc32: bv32)
    requires CarriesHeader(image, f, headerCrc32)
    ensures HasHeaderRange(|image|)
    ensures HeaderAt(image) == AppImageHeader(f.magic, f.boardId, f.minBootloaderVersion, headerCrc32, FieldBytes(f))
  {
    hide Le16, Le32, LeWord, FromLe16, FromLe32, FromLeWord, FieldBytes;
    FieldsAt(f);
    Le32RoundTrip(f.magic);
    Le16RoundTrip(f.boardId);
    Le32RoundTrip(f.minBootloaderVersion);
    LeWordRoundTrip(headerCrc32);
    var body := FieldBytes(f);
    var h := body + LeWord(headerCrc32);
    assert h[0..4] == body[0..4] && h[6..8] == body[6..8] && h[12..16] == body[12..16];
    assert h[60..64] == LeWord(headerCrc32) && h[..60] == body;
  }

  /** The firmware's answer, in the order it looks: checksum, board, bootloader version. */
  lemma FirmwareVerdict(image: seq<byte>, f: Fields, headerCrc32: bv32, enabled: bool, board: u16, bootloader: u32)
    requires CarriesHeader(image, f, headerCrc32)
    ensures GateVerdict(image, Controller(enabled, board, bootloader))
         == if f.magic != 0x4550_4657 then OK
            else if headerCrc32 != Crc32.Checksum(FieldBytes(f)) then ERR_INVALID_CRC
            else if f.boardId != board then ERR_INCOMPATIBLE_BOARD
            else if f.minBootloaderVersion > bootloader then ERR_INCOMPATIBLE_BOOTLOADER
            else OK
    ensures GateVerdict(image, NoController)
         == if f.magic == 0x4550_4657 && headerCrc32 != Crc32.Checksum(FieldBytes(f)) then ERR_INVALID_CRC else OK
  {
    hide HeaderAt, FieldBytes, Crc32.Checksum;
    HeaderRead(image, f, headerCrc32);
  }

  /** The bootloader's. */
  lemma BootloaderVerdict(image: seq<byte>, f: Fields, headerCrc32: bv32)
    requires CarriesHeader(image, f, headerCrc32)
    ensures HeaderInstallable(image)
       <==> (f.magic == 0x4550_4657 ==>
               headerCrc32 == Crc32.Checksum(FieldBytes(f)) && f.boardId == 1 && f.minBootloaderVersion <= 0x0100_0000)
  {
    hide HeaderAt, FieldBytes, Crc32.Checksum;
    HeaderRead(image, f, headerCrc32);
  }

  /** Images without a header are nobody's business. */
  lemma HeaderlessPasses(image: seq<byte>, ctrl: Controller)
    requires |image| < 0x440 || FromLe32(image[0x400..0x404]) != 0x4550_4657
    ensures GateVerdict(image, ctrl) == OK && HeaderInstallable(image)
  {
    hide FromLe32, Crc32.Checksum;
    if |image| >= 0x440 {
      assert image[0x400..0x440][0..4] == image[0x400..0x404];
    }
  }

  /** A whole update of this board, bootloader 1.0.0, by the fields of the image's header: acknowledged throughout and
      then installed exactly when the header's checksum is right, its board is this one and it asks for no newer
      bootloader; each refusal has its own answer. */
  lemma UpdateByHeader(s: Session, address: u32, image: seq<byte>, f: Fields, headerCrc32: bv32, version: u32,
                       autoReboot: bool, cells: seq<byte>, script: seq<CallResult>)
    requires |s.staging| == MAX_IMAGE_SIZE && |image| <= 163840
    requires CarriesHeader(image, f, headerCrc32) && f.magic == 0x4550_4657
    requires NoFaults(script) && 0x2000_0000 <= address < 0x3000_0000 && RoundUpSector(|image|) <= |cells|
    ensures var ctrl := Controller(true, 1, 0x0100_0000);
            var o := Conversation(s, address, ctrl, image, version, autoReboot);
            && o.status == (if headerCrc32 != Crc32.Checksum(FieldBytes(f)) then ERR_INVALID_CRC
                            else if f.boardId != 1 then ERR_INCOMPATIBLE_BOARD
                            else if f.minBootloaderVersion > 0x0100_0000 then ERR_INCOMPATIBLE_BOOTLOADER
                            else OK)
            && (o.status == OK ==>
                  && |o.session.staging| == MAX_IMAGE_SIZE
                  && CanBoot(o.session.block, MAX_IMAGE_SIZE, address, |cells|)
                  && Boot(o.session.block, o.session.staging, address, cells, script)
                     == BootRun(Installed(cells, image), CLEARED_BLOCK, OTA_UPDATE))
  {
    hide Conversation, PassesGate, GateVerdict, HeaderInstallable, Boot, CanBoot, Installed, RoundUpSector, NoFaults,
         CarriesHeader, FieldBytes, Crc32.Checksum;
    var ctrl := Controller(true, 1, 0x0100_0000);
    CarriedSize(image, f, headerCrc32);
    FirmwareVerdict(image, f, headerCrc32, true, 1, 0x0100_0000);
    ConversationDelivers(s, address, ctrl, image, version, autoReboot);
    OtaUpdater.EndToEnd(s, address, ctrl, image, version, autoReboot, cells, script);
  }

  lemma CarriedSize(image: seq<byte>, f: Fields, headerCrc32: bv32)
    requires CarriesHeader(image, f, headerCrc32)
    ensures |image| >= 0x440
  {}
}
