/** Kernel vocabulary shared by the model: fixed-width integers, errno values
    and the Option/Result wrappers used for error paths. */
module Linux {

  /** C `u32`. */
  newtype u32 = x: int | 0 <= x < 0x1_0000_0000

  /** C `u64` / `unsigned long` on a 64-bit kernel. */
  newtype u64 = x: int | 0 <= x < 0x1_0000_0000_0000_0000

  /** C `s64`, the representation of `ktime_t`. */
  newtype s64 = x: int | -0x8000_0000_0000_0000 <= x < 0x8000_0000_0000_0000

  const TWO_TO_64: int := 0x1_0000_0000_0000_0000

  /** Reading the low 64 bits of `x` as a two's-complement `s64`: a C cast to
      `s64`, and the result of a wrapping 64-bit addition. */
  function ToS64(x: int): (r: s64)
    ensures (r as int - x) % TWO_TO_64 == 0
    ensures -0x8000_0000_0000_0000 <= x < 0x8000_0000_0000_0000 ==> r as int == x
  {
    var m := x % TWO_TO_64;
    if m < 0x8000_0000_0000_0000 then m as s64 else (m - TWO_TO_64) as s64
  }

  /** errno values (include/uapi/asm-generic/errno-base.h); a kernel
      entry point reports an error by returning the negated value. */
  const ENOMEM: int := 12
  const ENODEV: int := 19
  const EINVAL: int := 22

  /** Nanoseconds per microsecond (include/linux/time64.h). */
  const NSEC_PER_USEC: int := 1000

  datatype Option<+T> = None | Some(value: T)

  datatype Result<+T, +E> = Ok(value: T) | Err(error: E)
}
