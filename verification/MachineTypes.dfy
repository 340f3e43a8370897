/** Bytes, 64-bit integers and floating-point values as the modelled code holds them. */
module MachineTypes {
  type Byte = x: int | 0 <= x < 256

  const MAX_INT := 0x7FFF_FFFF_FFFF_FFFF
  const TWO_63 := 0x8000_0000_0000_0000
  const TWO_64 := 0x1_0000_0000_0000_0000

  /** A float64, with finite values as exact reals. */
  datatype Float = NaN | NegInf | Fin(r: real) | PosInf

  /** The value a 64-bit variable holds after an operation whose exact result is `x`. */
  function Wrap(x: int): (r: int)
    ensures -MAX_INT - 1 <= r <= MAX_INT
    ensures -MAX_INT - 1 <= x <= MAX_INT ==> r == x
    ensures MAX_INT < x <= MAX_INT + TWO_64 ==> r == x - TWO_64
    ensures -MAX_INT - 1 - TWO_64 <= x < -MAX_INT - 1 ==> r == x + TWO_64
  {
    (x + MAX_INT + 1) % TWO_64 - MAX_INT - 1
  }
}
