/** Fixed-width integer conversions the Go and C code performs implicitly. */
module Words {

  const TWO_16: int := 0x1_0000
  const TWO_31: int := 0x8000_0000
  const TWO_32: int := 0x1_0000_0000
  const TWO_64: int := 0x1_0000_0000_0000_0000

  /** `uint16(x)`: the value in [0, 2^16) congruent to x. */
  function Uint16(x: int): (r: nat)
    ensures r < TWO_16
    ensures (x - r) % TWO_16 == 0
    ensures 0 <= x < TWO_16 ==> r == x
  {
    x % TWO_16
  }

  /** `uint32(x)`: the value in [0, 2^32) congruent to x. */
  function Uint32(x: int): (r: nat)
    ensures r < TWO_32
    ensures (x - r) % TWO_32 == 0
    ensures 0 <= x < TWO_32 ==> r == x
  {
    x % TWO_32
  }

  /** `uint64(x)`: the value in [0, 2^64) congruent to x. */
  function Uint64(x: int): (r: nat)
    ensures r < TWO_64
    ensures (x - r) % TWO_64 == 0
    ensures 0 <= x < TWO_64 ==> r == x
  {
    x % TWO_64
  }

  /** `int32(x)`: two's-complement reading of the low 32 bits of x. */
  function Int32(x: int): (r: int)
    ensures -TWO_31 <= r < TWO_31
    ensures (x - r) % TWO_32 == 0
    ensures -TWO_31 <= x < TWO_31 ==> r == x
  {
    var u := x % TWO_32;
    if u < TWO_31 then u else u - TWO_32
  }
}
