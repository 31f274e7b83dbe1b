/**
 * Stand-ins for the helpers of the source's class M (its source is not part
 * of this model): the byte type, the big-endian decoders Dec16be and Dec24be,
 * and the protocol-version constants.
 */
module M {

  newtype byte = x: int | 0 <= x < 0x100

  /** Protocol versions as 16-bit identifiers: SSL 2.0, SSL 3.0 and TLS 1.2 = SSL 3.3. */
  const SSLv20: int := 0x0200
  const SSLv30: int := 0x0300
  const TLSv12: int := 0x0303

  /** The unsigned 16-bit big-endian value of b[off], b[off + 1]. */
  function Dec16be(b: seq<byte>, off: nat): (r: int)
    requires off + 2 <= |b|
    ensures 0 <= r < 0x1_0000
  {
    b[off] as int * 0x100 + b[off + 1] as int
  }

  /** The unsigned 24-bit big-endian value of b[off .. off + 3]. */
  function Dec24be(b: seq<byte>, off: nat): (r: int)
    requires off + 3 <= |b|
    ensures 0 <= r < 0x100_0000
  {
    b[off] as int * 0x1_0000 + b[off + 1] as int * 0x100 + b[off + 2] as int
  }

  /** The two big-endian bytes of a 16-bit value; Dec16be reads it back. */
  function Enc16be(x: int): (r: seq<byte>)
    requires 0 <= x < 0x1_0000
    ensures |r| == 2 && Dec16be(r, 0) == x
  {
    [(x / 0x100) as byte, (x % 0x100) as byte]
  }

  /** The three big-endian bytes of a 24-bit value; Dec24be reads it back. */
  function Enc24be(x: int): (r: seq<byte>)
    requires 0 <= x < 0x100_0000
    ensures |r| == 3 && Dec24be(r, 0) == x
  {
    [(x / 0x1_0000) as byte, (x / 0x100 % 0x100) as byte, (x % 0x100) as byte]
  }
}
