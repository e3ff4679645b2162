/** Failure-compatible wrappers used throughout the model: `Option` for values
    that may be absent and `Result` for operations that return an error. */
module Wrappers {

  datatype Option<+T> = None | Some(value: T) {
    function GetOr(default: T): T {
      match this
      case Some(v) => v
      case None => default
    }
  }

  datatype Result<+R, +E> = Ok(value: R) | Err(error: E) {
    /** Rust's `Result::or`: keeps this value when it is `Ok`, else takes `other`. */
    function Or(other: Result<R, E>): Result<R, E> {
      if Ok? then this else other
    }
  }
}

/** Integer widths of the source and the opaque 64-bit float. */
module Numbers {
  type byte = x: int | 0 <= x < 0x100
  type u32 = x: int | 0 <= x < 0x1_0000_0000
  type u64 = x: int | 0 <= x < 0x1_0000_0000_0000_0000

  const U32_MAX: u32 := 0xFFFF_FFFF

  /** An IEEE-754 double, kept as its bit pattern: the model never computes with
      latitudes or longitudes, it only carries them. */
  datatype F64 = F64(bits: bv64)
}
