/** The record-count reply: `(records_len as u32).to_be_bytes()`. */
module Acknowledgment {
  import opened Wrappers

  /** Reply byte for an accepted IMEI handshake. */
  const ImeiAccepted: byte := 0x01
  /** Reply byte for a rejected IMEI handshake. */
  const ImeiRejected: byte := 0x00

  /** The cast to `u32` keeps the count modulo this. */
  const U32Modulus: nat := 0x1_0000_0000

  /** The unsigned value of four bytes read most significant first. */
  function BigEndianValue(b: seq<byte>): (v: nat)
    requires |b| == 4
    ensures v < U32Modulus
  {
    (b[0] as int) * 0x100_0000 + (b[1] as int) * 0x1_0000 + (b[2] as int) * 0x100 + (b[3] as int)
  }

  /** The count truncated to 32 bits, most significant byte first. */
  function BigEndianU32(n: nat): (r: seq<byte>)
    ensures |r| == 4
    ensures BigEndianValue(r) == n % U32Modulus
  {
    var v := n % U32Modulus;
    var low24 := v % 0x100_0000;
    var low16 := low24 % 0x1_0000;
    [v / 0x100_0000, low24 / 0x1_0000, low16 / 0x100, low16 % 0x100]
  }

  /** A count that fits in 32 bits is read back unchanged by the device. */
  lemma CountRoundTrip(n: nat)
    requires n < U32Modulus
    ensures BigEndianValue(BigEndianU32(n)) == n
  {
  }

  /** Every four-byte reply is the encoding of exactly one count below 2^32. */
  lemma BigEndianU32OfValue(b: seq<byte>)
    requires |b| == 4
    ensures BigEndianU32(BigEndianValue(b)) == b
  {
    var v := BigEndianValue(b);
    var low16 := (b[2] as int) * 0x100 + b[3] as int;
    var low24 := (b[1] as int) * 0x1_0000 + low16;
    assert v / 0x100_0000 == b[0] && v % 0x100_0000 == low24;
    assert low24 / 0x1_0000 == b[1] && low24 % 0x1_0000 == low16;
    assert low16 / 0x100 == b[2] && low16 % 0x100 == b[3];
  }
}
