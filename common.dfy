/** Shared vocabulary: an Option type, the C integer widths that matter,
    the errno values the cache returns and the platform's PATH_MAX. */
module Common {

  datatype Option<+T> = None | Some(value: T)

  /** C `int` (32 bits) and `time_t` / `int64_t` (64 bits). */
  newtype int32 = x: int | -0x8000_0000 <= x < 0x8000_0000
  newtype int64 = x: int | -0x8000_0000_0000_0000 <= x < 0x8000_0000_0000_0000

  newtype byte = x: int | 0 <= x < 0x100

  /** Linux errno values used by the metadata store. */
  const ENOENT: int := 2
  const EIO: int := 5
  const ENOTDIR: int := 20

  /** Linux PATH_MAX: every path buffer in the system is PATH_MAX + 1 chars. */
  const PATH_MAX: nat := 4096

  function Min(a: int, b: int): int { if a <= b then a else b }

  /** The conversion `(int)t` of a 64-bit `time_t` to a 32-bit `int`:
      the low 32 bits, read as two's complement. */
  function ToInt32(t: int64): (r: int32)
    ensures (t as int - r as int) % 0x1_0000_0000 == 0
    ensures -0x8000_0000 <= t as int < 0x8000_0000 ==> r as int == t as int
  {
    var m := (t as int) % 0x1_0000_0000;
    (if m < 0x8000_0000 then m else m - 0x1_0000_0000) as int32
  }

  /** `strncpy(dst, src, n)` seen through the destination buffer: the first
      min(|src|, n) characters of `src` (with no terminator when |src| >= n). */
  function StrNCopy(src: string, n: nat): (r: string)
    ensures |r| == Min(|src|, n) && r <= src
    ensures |src| < n ==> r == src
  {
    src[..Min(|src|, n)]
  }
}
