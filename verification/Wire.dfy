/** Octets on the wire. */
module Wire {

  type octet = b: int | 0 <= b < 256
  type Octets = seq<octet>

  /** The big-endian 16-bit word at `at`. */
  function U16(data: Octets, at: nat): (v: nat)
    requires at + 2 <= |data|
    ensures v < 0x1_0000
  {
    var high: int := data[at];
    high * 0x100 + data[at + 1]
  }
}
