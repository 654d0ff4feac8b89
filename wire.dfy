/** Fixed-width integers and the big-endian byte conversions of the STUN wire
    format (network byte order, section 6 of RFC 5389). */
module Wire {

  type byte = x: int | 0 <= x < 0x100
  type u16 = x: int | 0 <= x < 0x1_0000
  type u32 = x: int | 0 <= x < 0x1_0000_0000
  type u64 = x: int | 0 <= x < 0x1_0000_0000_0000_0000

  /** The fixed magic cookie of every RFC 5389 message header. */
  const MAGIC_COOKIE: u32 := 0x2112A442

  /** Size of the message header in bytes. */
  const HEADER_LEN: nat := 20

  /** `u16::from_be_bytes([hi, lo])`. */
  function Be16(hi: byte, lo: byte): u16
  {
    hi as int * 0x100 + lo
  }

  /** `u16::to_be_bytes`. */
  function Be16Bytes(v: u16): (b: seq<byte>)
    ensures |b| == 2 && Be16(b[0], b[1]) == v
  {
    [v / 0x100, v % 0x100]
  }

  /** `u32::from_be_bytes` of a four-byte window. */
  function Be32(b: seq<byte>): u32
    requires |b| == 4
  {
    ((b[0] as int * 0x100 + b[1]) * 0x100 + b[2]) * 0x100 + b[3]
  }

  /** `u32::to_be_bytes`. */
  function Be32Bytes(v: u32): (b: seq<byte>)
    ensures |b| == 4 && Be32(b) == v
  {
    [v / 0x100_0000, (v / 0x1_0000) % 0x100, (v / 0x100) % 0x100, v % 0x100]
  }

  /** Reading four bytes back is injective: a window equals the bytes of `v`
      exactly when it reads as `v`. */
  lemma Be32Exact(b: seq<byte>, v: u32)
    requires |b| == 4
    ensures Be32(b) == v <==> b == Be32Bytes(v)
  {
    if Be32(b) == v {
      var w := Be32Bytes(v);
      assert b[3] == v % 0x100 == w[3];
      assert b[2] == (v / 0x100) % 0x100 == w[2];
      assert b[1] == (v / 0x1_0000) % 0x100 == w[1];
      assert b[0] == v / 0x100_0000 == w[0];
    }
  }

  /** `n` rounded up to the next multiple of four (the TLV padding rule of
      section 15 of RFC 5389). */
  function RoundUp4(n: nat): (r: nat)
    ensures r % 4 == 0 && n <= r < n + 4
  {
    (n + 3) / 4 * 4
  }
}
