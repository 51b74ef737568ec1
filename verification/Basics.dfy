/** Vocabulary shared by every component: optional values, portable error codes and 64-bit words. */
module Basics {

  datatype Option<+T> = None | Some(value: T)

  /** The portable error codes that the modelled components return. `Success` is code zero. `Abort` is not
      a code: it stands for a failed assertion, which ends the process. */
  datatype Errno =
    | Success
    | EUnknown
    | EFault
    | EInval
    | EAgain
    | EConnReset
    | EIntr
    | ENoBufs
    | ETimedOut
    | ENoMem
    | Eof
    | EBadf
    | EMFile
    | Abort

  const U64_MAX: int := 0xffff_ffff_ffff_ffff
  const TWO_64: int := 0x1_0000_0000_0000_0000

  type u64 = x: int | 0 <= x <= U64_MAX

  function Min(a: int, b: int): int {
    if a <= b then a else b
  }

  /** The unsigned `x + n` of C: it wraps instead of overflowing. */
  function Wrap(x: nat): (r: u64)
    ensures x < TWO_64 ==> r == x
  {
    x % 0x1_0000_0000_0000_0000
  }
}
