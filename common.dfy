/**
 * What both programs share: the machine integer types, the standard Option,
 * and the error status the Pub/Sub client reports.
 */
module Common {

  const I32_MIN: int := -0x8000_0000
  const I32_MAX: int := 0x7fff_ffff
  /** 2^32: the number of distinct `i32` values. */
  const I32_MODULUS: int := 0x1_0000_0000

  /** An unsigned 8-bit integer: worker identities and payload bytes. */
  newtype u8 = x: int | 0 <= x < 0x100

  /** A signed 32-bit integer: the per-worker counts. */
  newtype i32 = x: int | -0x8000_0000 <= x < 0x8000_0000

  datatype Option<T> = None | Some(value: T)

  /** An error status reported by the Pub/Sub client (a gRPC status). */
  datatype Status = Status(code: int, message: string)

  /** The option as a sequence of at most one element. */
  function AsSeq<T>(o: Option<T>): seq<T>
  {
    match o
    case None => []
    case Some(v) => [v]
  }

  /**
   * Two's-complement truncation to 32 bits: what `x as i32` does to a wider
   * integer and what `+` on `i32` does on overflow in a release build. It
   * moves `x` by multiples of 2^32 until it lies in the `i32` range.
   */
  function Wrap32(x: int): i32
  {
    ((x - I32_MIN) % I32_MODULUS + I32_MIN) as i32
  }

  /** A value already in range is left as it is. */
  lemma Wrap32InRange(x: int)
    requires I32_MIN <= x <= I32_MAX
    ensures Wrap32(x) as int == x
  {
  }

  /** Truncating before an addition does not change the truncated sum. */
  lemma WrapAddLeft(x: int, y: int)
    ensures Wrap32(Wrap32(x) as int + y) == Wrap32(x + y)
  {
  }
}
