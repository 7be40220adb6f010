/**
 * Bluetooth UUIDs as 128-bit integers: the expansion of 16- and 32-bit short UUIDs against the
 * Bluetooth Base UUID (Bluetooth Core Specification Vol 3, Part B, section 2.5.1).
 */
module Uuid {

  const TWO_48: nat := 0x1_0000_0000_0000
  const TWO_64: nat := 0x1_0000_0000_0000_0000
  const TWO_80: nat := 0x1_0000_0000_0000_0000_0000
  const TWO_96: nat := 0x1_0000_0000_0000_0000_0000_0000
  const TWO_128: nat := 0x1_0000_0000_0000_0000_0000_0000_0000_0000

  type Uuid16 = x: nat | x < 0x1_0000
  type Uuid32 = x: nat | x < 0x1_0000_0000
  type Uuid128 = x: nat | x < 0x1_0000_0000_0000_0000_0000_0000_0000_0000

  const BASE_UUID: Uuid128 := 0x0000_0000_0000_1000_8000_0080_5F9B_34FB

  /** `uuid16_to_uuid128` */
  function Uuid16ToUuid128(uuid16: Uuid16): (u: Uuid128)
    ensures u / TWO_96 == uuid16
    ensures u % TWO_96 == BASE_UUID
  {
    uuid16 * TWO_96 + BASE_UUID
  }

  /** `uuid32_to_uuid128`: the sum never overflows, as the top 32 bits of the base are zero. */
  function Uuid32ToUuid128(uuid32: Uuid32): (u: Uuid128)
    ensures u / TWO_96 == uuid32
    ensures u % TWO_96 == BASE_UUID
  {
    uuid32 * TWO_96 + BASE_UUID
  }

  /** Distinct 16-bit UUIDs expand to distinct 128-bit UUIDs. */
  lemma Uuid16Injective(a: Uuid16, b: Uuid16)
    requires Uuid16ToUuid128(a) == Uuid16ToUuid128(b)
    ensures a == b
  {
  }

  /** Distinct 32-bit UUIDs expand to distinct 128-bit UUIDs. */
  lemma Uuid32Injective(a: Uuid32, b: Uuid32)
    requires Uuid32ToUuid128(a) == Uuid32ToUuid128(b)
    ensures a == b
  {
  }

  /** A 16-bit UUID expands as the same value taken as a 32-bit UUID. */
  lemma Uuid16IsUuid32(x: Uuid16)
    ensures Uuid16ToUuid128(x) == Uuid32ToUuid128(x)
  {
  }

  lemma ExpansionExamples()
    ensures Uuid16ToUuid128(0xACAB) == 0x0000ACAB_0000_1000_8000_00805F9B34FB
    ensures Uuid32ToUuid128(0xFFFF_FFFF) == 0xFFFFFFFF_0000_1000_8000_00805F9B34FB
  {
  }
}
