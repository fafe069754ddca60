/** `ModArrayTape` (src/tape/mod_array_tape.rs): cell values wrap modulo
    256 and the pointer wraps modulo the 64-bit `usize` range; nothing ever
    fails. The pointer is not kept below `TAPE_LENGTH`, so reading or
    writing the current cell demands it of the caller. */
module ModArrayTapes {
  import opened Wrappers
  import opened Tapes

  /** The number of `usize` values (64-bit targets). */
  const USIZE_MODULUS: nat := 0x1_0000_0000_0000_0000

  /** `wrapping_add(1)` on a `usize`. */
  function WrapInc(p: nat): (q: nat)
    requires p < USIZE_MODULUS
    ensures q < USIZE_MODULUS
    ensures q == if p == USIZE_MODULUS - 1 then 0 else p + 1
  {
    (p + 1) % USIZE_MODULUS
  }

  /** `wrapping_sub(1)` on a `usize`. */
  function WrapDec(p: nat): (q: nat)
    requires p < USIZE_MODULUS
    ensures q < USIZE_MODULUS
    ensures q == if p == 0 then USIZE_MODULUS - 1 else p - 1
  {
    (p + USIZE_MODULUS - 1) % USIZE_MODULUS
  }

  /** The two pointer moves undo each other. */
  lemma WrapIncDec(p: nat)
    requires p < USIZE_MODULUS
    ensures WrapDec(WrapInc(p)) == p
    ensures WrapInc(WrapDec(p)) == p
  {
  }

  class ModArrayTape {
    const cells: array<bv8>
    var ptr: nat

    /** The array has its full length and the pointer is a `usize`; it may
        lie beyond the array. */
    ghost predicate Valid()
      reads this
    {
      cells.Length == TAPE_LENGTH && ptr < USIZE_MODULUS
    }

    /** `default`: every cell 0, pointer at the first cell. */
    constructor Default()
      ensures Valid() && fresh(cells)
      ensures ptr == 0
      ensures forall i :: 0 <= i < cells.Length ==> cells[i] == 0
    {
      cells := new bv8[TAPE_LENGTH](_ => 0);
      ptr := 0;
    }

    /** `deref`: the current cell; indexing out of the array panics. */
    function Get(): (v: bv8)
      requires Valid() && ptr < TAPE_LENGTH
      reads this, cells
      ensures v == cells[ptr]
    {
      cells[ptr]
    }

    /** `deref_mut`: overwrite the current cell and nothing else. */
    method Set(v: bv8)
      requires Valid() && ptr < TAPE_LENGTH
      modifies cells
      ensures Valid() && Get() == v
      ensures forall i :: 0 <= i < cells.Length && i != ptr ==> cells[i] == old(cells[i])
    {
      cells[ptr] := v;
    }

    /** `inc_val`: the current cell plus one modulo 256; never fails. */
    method IncVal() returns (r: Result<bv8, TapeError>)
      requires Valid() && ptr < TAPE_LENGTH
      modifies cells
      ensures Valid() && r.Ok?
      ensures r.value == cells[ptr] == WrappingInc(old(cells[ptr]))
      ensures forall i :: 0 <= i < cells.Length && i != ptr ==> cells[i] == old(cells[i])
    {
      var v := WrappingInc(cells[ptr]);
      cells[ptr] := v;
      r := Ok(v);
    }

    /** `dec_val`: the current cell minus one modulo 256; never fails. */
    method DecVal() returns (r: Result<bv8, TapeError>)
      requires Valid() && ptr < TAPE_LENGTH
      modifies cells
      ensures Valid() && r.Ok?
      ensures r.value == cells[ptr] == WrappingDec(old(cells[ptr]))
      ensures forall i :: 0 <= i < cells.Length && i != ptr ==> cells[i] == old(cells[i])
    {
      var v := WrappingDec(cells[ptr]);
      cells[ptr] := v;
      r := Ok(v);
    }

    /** `inc_ptr`: the pointer plus one, wrapping to 0 after `usize::MAX`; never fails. */
    method IncPtr() returns (r: Result<nat, TapeError>)
      requires Valid()
      modifies this
      ensures Valid() && r.Ok?
      ensures r.value == ptr == WrapInc(old(ptr))
      ensures cells[..] == old(cells[..])
    {
      ptr := WrapInc(ptr);
      r := Ok(ptr);
    }

    /** `dec_ptr`: the pointer minus one, wrapping to `usize::MAX` below 0; never fails. */
    method DecPtr() returns (r: Result<nat, TapeError>)
      requires Valid()
      modifies this
      ensures Valid() && r.Ok?
      ensures r.value == ptr == WrapDec(old(ptr))
      ensures cells[..] == old(cells[..])
    {
      ptr := WrapDec(ptr);
      r := Ok(ptr);
    }
  }

  /** The shared tape tests (src/tape/mod.rs) on this tape, plus where the
      pointer lands when moved left from the first cell. */
  method ModArrayTapeTests() returns (deref: bv8, derefMut: bv8, incVal: bv8, decVal: bv8)
    ensures deref == 0 && derefMut == 20 && incVal == 21 && decVal == 19
  {
    var t := new ModArrayTape.Default();
    deref := t.Get();

    t := new ModArrayTape.Default();
    var r := t.IncVal();
    t.Set(20);
    derefMut := t.Get();

    t := new ModArrayTape.Default();
    t.Set(20);
    r := t.IncVal();
    incVal := t.Get();

    t := new ModArrayTape.Default();
    t.Set(20);
    r := t.DecVal();
    decVal := t.Get();
  }

  /** The pointer tests on a fresh default tape: the current cell after
      one move right and after moving back; and, on another fresh tape, the
      pointer after one move left from cell 0, which wraps to the largest
      `usize`, outside the array. */
  method ModArrayTapePointerTests() returns (incPtr: bv8, decPtr: bv8, leftOfFirst: nat)
    ensures incPtr == 0 && decPtr == 20
    ensures leftOfFirst == USIZE_MODULUS - 1 && leftOfFirst >= TAPE_LENGTH
  {
    var t := new ModArrayTape.Default();
    t.Set(20);
    var p := t.IncPtr();
    incPtr := t.Get();
    p := t.DecPtr();
    decPtr := t.Get();

    t := new ModArrayTape.Default();
    p := t.DecPtr();
    leftOfFirst := p.value;
  }
}
