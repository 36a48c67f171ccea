/** The structures the updater, the firmware and the bootloader exchange: status codes, the OTA
    control block, the embedded image header and the bootloader's handover record. */
module OtaTypes {
  import opened Bytes
  import opened Crc32

  datatype StatusCode =
    | OK
    | ERR_INVALID_CRC
    | ERR_UNKNOWN_CMD
    | ERR_INVALID_PAYLOAD
    | ERR_BUSY
    | ERR_IMAGE_TOO_LARGE
    | ERR_OTA_DISABLED
    | ERR_INCOMPATIBLE_BOARD
    | ERR_INCOMPATIBLE_BOOTLOADER

  // ---------- OTA control block ----------

  const OTA_MAGIC: u32 := 0x4F54_4131
  const PENDING_INSTALL: u32 := 1
  const SLOT_A_PHYSICAL_BASE: u32 := 0x7000_0000

  datatype OtaControlBlock = OtaControlBlock(
    magic: u32,
    state: u32,
    imageSize: u32,
    imageCrc32: bv32,
    targetVersion: u32,
    stagingAddress: u32,
    activeAddress: u32,
    structCrc32: bv32)

  /** The 28 bytes in front of struct_crc32, as they lie in memory. */
  function BlockBody(b: OtaControlBlock): (s: seq<byte>)
    ensures |s| == 28
  {
    Le32(b.magic) + Le32(b.state) + Le32(b.imageSize) + LeWord(b.imageCrc32)
    + Le32(b.targetVersion) + Le32(b.stagingAddress) + Le32(b.activeAddress)
  }

  const CLEARED_BLOCK := OtaControlBlock(0, 0, 0, 0, 0, 0, 0, 0)

  // ---------- AppImageHeader ----------

  const EPFW_MAGIC: u32 := 0x4550_4657
  const APP_HEADER_FLASH_OFFSET := 0x400
  const APP_HEADER_SIZE := 64

  /** The fields of the 64-byte image header that decide anything. */
  datatype AppImageHeader = AppImageHeader(
    magic: u32,
    boardId: u16,
    minBootloaderVersion: u32,
    headerCrc32: bv32,
    body: seq<byte>)
  {
    predicate IsValid() {
      magic == EPFW_MAGIC && headerCrc32 == Checksum(body)
    }
  }

  predicate HasHeaderRange(size: int) {
    size >= APP_HEADER_FLASH_OFFSET + APP_HEADER_SIZE
  }

  function HeaderAt(image: seq<byte>): AppImageHeader
    requires HasHeaderRange(|image|)
  {
    var h := image[APP_HEADER_FLASH_OFFSET..APP_HEADER_FLASH_OFFSET + APP_HEADER_SIZE];
    AppImageHeader(FromLe32(h[0..4]), FromLe16(h[6..8]), FromLe32(h[12..16]), FromLeWord(h[60..64]), h[..60])
  }

  // ---------- BootInfo ----------

  const BOOT_INFO_MAGIC: u32 := 0x424F_4F54

  function MakeVersion(major: u8, minor: u8, patch: u8, build: u8): u32 {
    major * 0x100_0000 + minor * 0x1_0000 + patch * 0x100 + build
  }

  datatype BootReason = POWER_ON | SOFT_RESET | OTA_UPDATE | FAULT | WATCHDOG

  function ReasonCode(r: BootReason): u32 {
    match r
    case POWER_ON => 0
    case SOFT_RESET => 1
    case OTA_UPDATE => 2
    case FAULT => 3
    case WATCHDOG => 4
  }

  datatype BootInfo = BootInfo(
    magic: u32,
    bootloaderVersion: u32,
    bootReason: u32,
    activeSlot: u32,
    bootCount: u32,
    reserved0: u32,
    reserved1: u32,
    structCrc32: bv32)
  {
    predicate IsValid() {
      magic == BOOT_INFO_MAGIC && structCrc32 == Checksum(InfoBody(this))
    }
  }

  function InfoBody(b: BootInfo): seq<byte> {
    Le32(b.magic) + Le32(b.bootloaderVersion) + Le32(b.bootReason) + Le32(b.activeSlot)
    + Le32(b.bootCount) + Le32(b.reserved0) + Le32(b.reserved1)
  }
}
