/** Octets of PCI configuration space and the two byte patterns the recovery tool looks for.

    The first four bytes of a function's configuration space hold its Vendor ID and Device ID,
    each a 16-bit little-endian register (PCI Local Bus Specification 3.0, section 6.1). A
    function that does not answer reads as all ones, so its Vendor ID reads 0xFFFF (section
    6.2.1 of the same specification). The tool compares raw bytes held in Java `byte[]`
    arrays, whose elements are signed; `Signed` gives the value Java compares. */
module PciConfig {

  /** One octet of a configuration stream, as stored (0 to 255). */
  newtype byte = x: int | 0 <= x < 256

  /** The value of an octet once it sits in a Java `byte[]` and is compared with an `int`:
      two's complement, sign-extended. */
  function Signed(b: byte): (v: int)
    ensures -128 <= v < 128
    ensures (v - b as int) % 256 == 0
  {
    if b < 128 then b as int else b as int - 256
  }

  /** A 16-bit register stored little-endian at offset `at`. */
  function Le16(cfg: seq<byte>, at: nat): int
    requires at + 2 <= |cfg|
  {
    cfg[at] as int + 256 * cfg[at + 1] as int
  }

  function VendorId(cfg: seq<byte>): int
    requires |cfg| >= 2
  {
    Le16(cfg, 0)
  }

  function DeviceId(cfg: seq<byte>): int
    requires |cfg| >= 4
  {
    Le16(cfg, 2)
  }

  const AMD_VENDOR_ID := 0x1022
  const ZEN_BRIDGE_DEVICE_ID := 0x1453
  /** What the Vendor ID register reads when no function answers. */
  const NO_DEVICE_VENDOR_ID := 0xFFFF
  /** The identity tag of the supported bridge, in the order the bytes are stored. */
  const ZEN_BRIDGE_TAG: seq<byte> := [0x22, 0x10, 0x53, 0x14]

  /** The bridge test at ZenBridgeBaconRecovery.java:63, evaluated as Java does: each signed
      element of `id` against an int literal. It holds exactly for the stored tag, that is for
      an AMD function (Vendor ID 0x1022) with Device ID 0x1453. */
  function IsZenBridgeTag(id: seq<byte>): (b: bool)
    requires |id| == 4
    ensures b <==> id == ZEN_BRIDGE_TAG
    ensures b <==> VendorId(id) == AMD_VENDOR_ID && DeviceId(id) == ZEN_BRIDGE_DEVICE_ID
  {
    Signed(id[0]) == 0x22 && Signed(id[1]) == 0x10 && Signed(id[2]) == 0x53 && Signed(id[3]) == 0x14
  }

  /** The failure test at ZenBridgeBaconRecovery.java:83 and :100, which compares the first two
      signed elements with -1: both octets are 0xFF, that is the Vendor ID reads 0xFFFF. */
  function IsLostSignature(id: seq<byte>): (b: bool)
    requires |id| >= 2
    ensures b <==> id[0] == 0xFF && id[1] == 0xFF
    ensures b <==> VendorId(id) == NO_DEVICE_VENDOR_ID
  {
    Signed(id[0]) == -1 && Signed(id[1]) == -1
  }
}
