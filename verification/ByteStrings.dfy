/** Bytes, fixed-width integers and their big-endian encodings. */
module ByteStrings {
  type byte = b: int | 0 <= b < 256
  type Bytes = seq<byte>
  type u16 = n: int | 0 <= n < U16_LIMIT
  type u32 = n: int | 0 <= n < U32_LIMIT

  const U16_LIMIT := 0x1_0000
  const U32_LIMIT := 0x1_0000_0000

  /** Rust's `as u16` on an unsigned value: the high bits are dropped. */
  function AsU16(n: nat): (r: u16)
    ensures n < U16_LIMIT ==> r == n
    ensures r <= n && (n - r) % 0x1_0000 == 0
  {
    n % U16_LIMIT
  }

  /** Rust's `as u32` on an unsigned value. */
  function AsU32(n: nat): (r: u32)
    ensures n < U32_LIMIT ==> r == n
    ensures r <= n && (n - r) % 0x1_0000_0000 == 0
  {
    n % U32_LIMIT
  }

  function Zeros(n: nat): (z: Bytes)
    ensures |z| == n
  {
    seq(n, _ => 0)
  }

  function BE16(n: u16): (b: Bytes)
    ensures |b| == 2
  {
    [n / 256, n % 256]
  }

  function FromBE16(b: Bytes): u16
    requires |b| == 2
  {
    var high: int, low: int := b[0], b[1];
    high * 256 + low
  }

  function BE32(n: u32): (b: Bytes)
    ensures |b| == 4
  {
    BE16(n / U16_LIMIT) + BE16(n % U16_LIMIT)
  }

  function FromBE32(b: Bytes): u32
    requires |b| == 4
  {
    FromBE16(b[..2]) * U16_LIMIT + FromBE16(b[2..])
  }

  lemma BE16RoundTrip(n: u16)
    ensures FromBE16(BE16(n)) == n
  {
  }

  lemma BE16Onto(b: Bytes)
    requires |b| == 2
    ensures BE16(FromBE16(b)) == b
  {
  }

  lemma BE32RoundTrip(n: u32)
    ensures FromBE32(BE32(n)) == n
  {
    assert BE32(n)[..2] == BE16(n / U16_LIMIT);
    assert BE32(n)[2..] == BE16(n % U16_LIMIT);
  }

  /** Most significant byte first. */
  lemma BE32Weights(n: u32)
    ensures var b := BE32(n);
      n == b[0] * 0x100_0000 + b[1] * 0x1_0000 + b[2] * 0x100 + b[3] as int
  {
  }

  lemma BE32Onto(b: Bytes)
    requires |b| == 4
    ensures BE32(FromBE32(b)) == b
  {
    BE16Onto(b[..2]);
    BE16Onto(b[2..]);
    assert b == b[..2] + b[2..];
  }

  /** `dst[at..at + src.len()].copy_from_slice(src)`. */
  method CopyFromSlice(dst: array<byte>, at: nat, src: Bytes)
    requires at + |src| <= dst.Length
    modifies dst
    ensures dst[..] == old(dst[..at]) + src + old(dst[at + |src|..])
  {
    for i := 0 to |src|
      invariant dst[..at] == old(dst[..at])
      invariant dst[at..at + i] == src[..i]
      invariant dst[at + i..] == old(dst[at + i..])
    {
      dst[at + i] := src[i];
    }
  }
}
