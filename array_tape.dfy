/** `ArrayTape` (src/tape/array_tape.rs): all `TAPE_LENGTH` cells allocated
    up front; value and pointer moves are checked and report `Overflow`. */
module ArrayTapes {
  import opened Wrappers
  import opened Tapes

  class ArrayTape {
    const cells: array<bv8>
    var ptr: nat

    /** The pointer always indexes the array. */
    ghost predicate Valid()
      reads this
    {
      cells.Length == TAPE_LENGTH && ptr < TAPE_LENGTH
    }

    /** `default`: every cell 0, pointer at the first cell. */
    constructor Default()
      ensures Valid() && fresh(cells)
      ensures ptr == 0
      ensures forall i :: 0 <= i < cells.Length ==> cells[i] == 0
    {
      cells := new bv8[TAPE_LENGTH](_ => 0);
      ptr := 0;
    }

    /** `deref`: the current cell. */
    function Get(): (v: bv8)
      requires Valid()
      reads this, cells
      ensures v == cells[ptr]
    {
      cells[ptr]
    }

    /** `deref_mut`: overwrite the current cell and nothing else. */
    method Set(v: bv8)
      requires Valid()
      modifies cells
      ensures Valid() && Get() == v
      ensures forall i :: 0 <= i < cells.Length && i != ptr ==> cells[i] == old(cells[i])
    {
      cells[ptr] := v;
    }

    /** `inc_val`: the current cell plus one, or `Overflow` at 255 with nothing changed. */
    method IncVal() returns (r: Result<bv8, TapeError>)
      requires Valid()
      modifies cells
      ensures Valid()
      ensures r.Ok? <==> old(cells[ptr]) < 255
      ensures r.Ok? ==> r.value as int == old(cells[ptr]) as int + 1 && cells[ptr] == r.value
      ensures r.Err? ==> r.error == Overflow && cells[ptr] == old(cells[ptr])
      ensures forall i :: 0 <= i < cells.Length && i != ptr ==> cells[i] == old(cells[i])
    {
      match CheckedInc(cells[ptr]) {
        case Some(v) =>
          cells[ptr] := v;
          r := Ok(v);
        case None =>
          r := Err(Overflow);
      }
    }

    /** `dec_val`: the current cell minus one, or `Overflow` at 0 with nothing changed. */
    method DecVal() returns (r: Result<bv8, TapeError>)
      requires Valid()
      modifies cells
      ensures Valid()
      ensures r.Ok? <==> old(cells[ptr]) > 0
      ensures r.Ok? ==> r.value as int == old(cells[ptr]) as int - 1 && cells[ptr] == r.value
      ensures r.Err? ==> r.error == Overflow && cells[ptr] == old(cells[ptr])
      ensures forall i :: 0 <= i < cells.Length && i != ptr ==> cells[i] == old(cells[i])
    {
      match CheckedDec(cells[ptr]) {
        case Some(v) =>
          cells[ptr] := v;
          r := Ok(v);
        case None =>
          r := Err(Overflow);
      }
    }

    /** `inc_ptr`: move one cell right, or `Overflow` at the last cell with nothing changed. */
    method IncPtr() returns (r: Result<nat, TapeError>)
      requires Valid()
      modifies this
      ensures Valid()
      ensures r.Ok? <==> old(ptr) + 1 < TAPE_LENGTH
      ensures r.Ok? ==> r.value == ptr == old(ptr) + 1
      ensures r.Err? ==> r.error == Overflow && ptr == old(ptr)
      ensures cells[..] == old(cells[..])
    {
      if ptr + 1 < TAPE_LENGTH {
        ptr := ptr + 1;
        r := Ok(ptr);
      } else {
        r := Err(Overflow);
      }
    }

    /** `dec_ptr`: move one cell left, or `Overflow` at the first cell with nothing changed. */
    method DecPtr() returns (r: Result<nat, TapeError>)
      requires Valid()
      modifies this
      ensures Valid()
      ensures r.Ok? <==> old(ptr) > 0
      ensures r.Ok? ==> r.value == ptr && ptr + 1 == old(ptr)
      ensures r.Err? ==> r.error == Overflow && ptr == old(ptr)
      ensures cells[..] == old(cells[..])
    {
      if ptr > 0 {
        ptr := ptr - 1;
        r := Ok(ptr);
      } else {
        r := Err(Overflow);
      }
    }
  }

  /** The crate's tests for this tape, each on a fresh default tape: the
      values its current cell is read to hold. */
  method ArrayTapeTests() returns (deref: bv8, derefMut: bv8, incVal: bv8, decVal: bv8)
    ensures deref == 0 && derefMut == 20 && incVal == 21 && decVal == 19
  {
    var t := new ArrayTape.Default();
    deref := t.Get();

    t := new ArrayTape.Default();
    var r := t.IncVal();
    assert r.Ok?;
    t.Set(20);
    derefMut := t.Get();

    t := new ArrayTape.Default();
    t.Set(20);
    r := t.IncVal();
    assert r.Ok?;
    incVal := t.Get();

    t := new ArrayTape.Default();
    t.Set(20);
    r := t.DecVal();
    assert r.Ok?;
    decVal := t.Get();
  }

  /** The pointer tests on a fresh default tape: the current cell after
      one move right and after moving back. */
  method ArrayTapePointerTests() returns (incPtr: bv8, decPtr: bv8)
    ensures incPtr == 0 && decPtr == 20
  {
    var t := new ArrayTape.Default();
    t.Set(20);
    var p := t.IncPtr();
    assert p.Ok?;
    incPtr := t.Get();
    p := t.DecPtr();
    assert p.Ok?;
    decPtr := t.Get();
  }
}
