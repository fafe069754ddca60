/** What every tape of src/tape/ shares: the portable tape length and the
    errors a tape operation can report. The operations themselves (get, set,
    increment and decrement of value and pointer) are declared by each tape
    class in its own module, with the same names. */
module Tapes {
  import opened Wrappers

  /** The number of cells of a portable tape. */
  const TAPE_LENGTH: nat := 30000

  /** The tape errors (src/tape/error.rs), plus the single `Overflow` that
      `ArrayTape` and `VecTape` report. */
  datatype TapeError = ValOverflow | ValUnderflow | PtrOverflow | PtrUnderflow | Overflow

  /** The value one above `v`, if a byte can hold it. */
  function CheckedInc(v: bv8): (r: Option<bv8>)
    ensures r.Some? <==> v as int < 255
    ensures r.Some? ==> r.value as int == v as int + 1
  {
    if v == 255 then None else Some(v + 1)
  }

  /** The value one below `v`, if a byte can hold it. */
  function CheckedDec(v: bv8): (r: Option<bv8>)
    ensures r.Some? <==> v as int > 0
    ensures r.Some? ==> r.value as int == v as int - 1
  {
    if v == 0 then None else Some(v - 1)
  }

  /** `wrapping_add(1)` on a byte: the checked increment where it is
      defined, and 0 where it overflows. */
  function WrappingInc(v: bv8): (r: bv8)
    ensures CheckedInc(v).None? ==> r == 0
    ensures CheckedInc(v).Some? ==> r == CheckedInc(v).value
  {
    v + 1
  }

  /** `wrapping_sub(1)` on a byte: the checked decrement where it is
      defined, and 255 where it underflows. */
  function WrappingDec(v: bv8): (r: bv8)
    ensures CheckedDec(v).None? ==> r == 255
    ensures CheckedDec(v).Some? ==> r == CheckedDec(v).value
  {
    v - 1
  }
}
