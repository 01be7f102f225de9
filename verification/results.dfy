/** Optional values, fallible results and the fixed-width integer types the
    library's fields use. Every width is written out as a range so that the
    model never relies on Dafny's unbounded `int` where the crate has a
    bounded one. */
module Results {

  /** Rust's `Option<T>`. */
  datatype Option<+T> = None | Some(value: T) {

    /** The held value, or `default` when there is none (`unwrap_or`). */
    function UnwrapOr(default: T): (v: T)
      ensures Some? ==> v == value
      ensures None? ==> v == default
    {
      match this
      case Some(x) => x
      case None => default
    }
  }

  /** Rust's `Result<T, E>`. */
  datatype Result<+T, +E> = Ok(value: T) | Err(error: E)

  /** Signed 64-bit integers (`i64`). */
  type Int64 = x: int | -0x8000_0000_0000_0000 <= x < 0x8000_0000_0000_0000

  /** Unsigned 64-bit integers (`u64`). */
  type Uint64 = x: int | 0 <= x < 0x1_0000_0000_0000_0000

  /** `usize` on the 64-bit targets the library is built for. */
  type Usize = Uint64

  const USIZE_MAX: Usize := 0xFFFF_FFFF_FFFF_FFFF

  /** A UUID is compared and copied, never inspected: 128 opaque bits. */
  type Uuid = bv128

  /** A calendar date (`chrono::NaiveDate`); only its presence matters here. */
  datatype Date = Date(year: int, month: nat, day: nat)
}
