/**
 * java.lang.String.hashCode: h = 31 * h + c over the UTF-16 units, in
 * 32-bit two's-complement arithmetic. Characters are taken one code point
 * per unit (see README, "Left out").
 */
module StringHash {

  const TwoTo32: int := 0x1_0000_0000
  const TwoTo31: int := 0x8000_0000

  /** The hash as an unsigned 32-bit value: the wrap-around made explicit. */
  function HashBits(s: string): (h: nat)
    ensures h < TwoTo32
  {
    if |s| == 0 then 0
    else (31 * HashBits(s[..|s| - 1]) + s[|s| - 1] as int) % TwoTo32
  }

  /** Reinterpret 32 bits as a Java int. */
  function ToInt32(bits: nat): (r: int)
    requires bits < TwoTo32
    ensures -TwoTo31 <= r < TwoTo31
    ensures (r + TwoTo32) % TwoTo32 == bits
  {
    if bits < TwoTo31 then bits else bits - TwoTo32
  }

  /** String.hashCode: always within Java's int range. */
  function HashCode(s: string): (h: int)
    ensures -TwoTo31 <= h < TwoTo31
  {
    ToInt32(HashBits(s))
  }

  /** Two different paths with the same hash: ids derived from it can collide. */
  lemma HashCollision()
    ensures "Aa" != "BB" && HashCode("Aa") == HashCode("BB") == 2112
  {
    assert "Aa"[..1] == "A" && "BB"[..1] == "B";
    assert "A"[..0] == "" && "B"[..0] == "";
  }
}
