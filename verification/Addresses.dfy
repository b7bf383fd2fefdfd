/** Network and link-layer addresses. */
module Addresses {
  type Ipv4Address = a: nat | a < 0x1_0000_0000

  type Mac48Address = m: nat | m < 0x1_0000_0000_0000

  const ANY: Ipv4Address := 0

  const BROADCAST: Mac48Address := 0xFFFF_FFFF_FFFF
}
