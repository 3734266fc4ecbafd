/** What the locks share: the two sides, and 16-bit counters that wrap. */
module LockWords {

  datatype Side = Read | Write

  type u16 = x: nat | x < 0x1_0000

  function Inc16(x: u16): u16 {
    (x + 1) % 0x1_0000
  }

  function Dec16(x: u16): u16 {
    (x + 0xFFFF) % 0x1_0000
  }
}
