/** Basic byte-level types shared by the whole model: the unsigned 8-bit
    value, the fixed 64 KiB cartridge buffer and the 48-byte boot-logo
    signature. */
module Bytes {

  /** An unsigned 8-bit value (Rust `u8`). */
  type byte = x: int | 0 <= x < 0x100

  /** Number of bytes the reader holds: the first 64 KiB of a cartridge. */
  const BufferSize: nat := 0x10000

  /** Number of bytes in the boot-logo signature. */
  const SignatureSize: nat := 48

  /** The cartridge buffer (`[u8; 65536]`). */
  type Buffer = s: seq<byte> | |s| == BufferSize witness Zeros(BufferSize)

  /** The boot-logo reference signature (`[u8; 48]`). */
  type Signature = s: seq<byte> | |s| == SignatureSize witness Zeros(SignatureSize)

  /** `n` zero bytes. */
  function Zeros(n: nat): (z: seq<byte>)
    ensures |z| == n
    ensures forall i :: 0 <= i < n ==> z[i] == 0
  {
    seq(n, _ => 0)
  }
}
