/**
 * Fixed-width machine integers of the x86-64 kernel (the <stdint.h> types)
 * and the little-endian byte images that packed structures have in memory.
 */
module Machine {

  type u8 = x: int | 0 <= x < 0x100
  type u16 = x: int | 0 <= x < 0x1_0000
  type u32 = x: int | 0 <= x < 0x1_0000_0000
  type u64 = x: int | 0 <= x < 0x1_0000_0000_0000_0000
  type i64 = x: int | -0x8000_0000_0000_0000 <= x < 0x8000_0000_0000_0000

  const TWO_16: nat := 0x1_0000
  const TWO_32: nat := 0x1_0000_0000
  const TWO_63: nat := 0x8000_0000_0000_0000
  const TWO_64: nat := 0x1_0000_0000_0000_0000

  /** 256 to the power k: one more than the largest value held in k bytes. */
  function Pow256(k: nat): (r: nat)
    ensures r >= 1
  {
    if k == 0 then 1 else 256 * Pow256(k - 1)
  }

  lemma Pow256Values()
    ensures Pow256(2) == TWO_16 && Pow256(4) == TWO_32 && Pow256(8) == TWO_64
  {
    assert Pow256(4) == 256 * 256 * Pow256(2);
    assert Pow256(8) == 256 * 256 * 256 * 256 * Pow256(4);
  }

  /** The k-byte little-endian image of n (bytes beyond k are dropped, as a truncating store does). */
  function LittleEndian(n: nat, k: nat): (r: seq<u8>)
    ensures |r| == k
  {
    if k == 0 then [] else [n % 256] + LittleEndian(n / 256, k - 1)
  }

  /** The unsigned value whose little-endian image is bs. */
  function FromLittleEndian(bs: seq<u8>): (n: nat)
    ensures n < Pow256(|bs|)
  {
    if bs == [] then 0 else bs[0] + 256 * FromLittleEndian(bs[1..])
  }

  /** Reading back a k-byte image yields the stored value, whenever it fits in k bytes. */
  lemma {:induction false} LittleEndianRoundTrip(n: nat, k: nat)
    requires n < Pow256(k)
    ensures FromLittleEndian(LittleEndian(n, k)) == n
  {
    if k > 0 {
      assert n / 256 < Pow256(k - 1);
      LittleEndianRoundTrip(n / 256, k - 1);
      assert LittleEndian(n, k)[1..] == LittleEndian(n / 256, k - 1);
    }
  }

  /** The conversion (uint64_t) of a signed 64-bit value: two's complement reinterpretation. */
  function AsUnsigned(v: i64): (w: u64)
    ensures AsSigned(w) == v
  {
    if v < 0 then v + TWO_64 else v
  }

  /** The conversion (int64_t) of an unsigned 64-bit value: two's complement reinterpretation. */
  function AsSigned(w: u64): (v: i64)
  {
    if w >= TWO_63 then w - TWO_64 else w
  }

  /** Reinterpreting a bit pattern as signed and back loses nothing. */
  lemma SignedRoundTrip(w: u64)
    ensures AsUnsigned(AsSigned(w)) == w
  {
  }
}
