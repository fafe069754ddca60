/** `VecTape` (src/tape/vec_tape.rs): cells are allocated lazily, one zero
    cell each time the pointer first reaches a new index; value and pointer
    moves are checked and report `Overflow`. */
module VecTapes {
  import opened Wrappers
  import opened Tapes

  class VecTape {
    var cells: seq<bv8>
    var ptr: nat

    /** The pointer indexes an allocated cell, and no more than
        `TAPE_LENGTH` cells are ever allocated. */
    ghost predicate Valid()
      reads this
    {
      ptr < |cells| <= TAPE_LENGTH
    }

    /** `default`: a single zero cell, pointer on it. */
    constructor Default()
      ensures Valid()
      ensures cells == [0] && ptr == 0
    {
      cells := [0];
      ptr := 0;
    }

    /** `deref`: the current cell. */
    function Get(): (v: bv8)
      requires Valid()
      reads this
      ensures v == cells[ptr]
    {
      cells[ptr]
    }

    /** `deref_mut`: overwrite the current cell and nothing else. */
    method Set(v: bv8)
      requires Valid()
      modifies this
      ensures Valid() && Get() == v
      ensures ptr == old(ptr) && cells == old(cells)[ptr := v]
    {
      cells := cells[ptr := v];
    }

    /** `inc_val`: the current cell plus one, or `Overflow` at 255 with nothing changed. */
    method IncVal() returns (r: Result<bv8, TapeError>)
      requires Valid()
      modifies this
      ensures Valid() && ptr == old(ptr)
      ensures r.Ok? <==> old(cells[ptr]) < 255
      ensures r.Ok? ==> r.value as int == old(cells[ptr]) as int + 1 && cells == old(cells)[ptr := r.value]
      ensures r.Err? ==> r.error == Overflow && cells == old(cells)
    {
      match CheckedInc(cells[ptr]) {
        case Some(v) =>
          cells := cells[ptr := v];
          r := Ok(v);
        case None =>
          r := Err(Overflow);
      }
    }

    /** `dec_val`: the current cell minus one, or `Overflow` at 0 with nothing changed. */
    method DecVal() returns (r: Result<bv8, TapeError>)
      requires Valid()
      modifies this
      ensures Valid() && ptr == old(ptr)
      ensures r.Ok? <==> old(cells[ptr]) > 0
      ensures r.Ok? ==> r.value as int == old(cells[ptr]) as int - 1 && cells == old(cells)[ptr := r.value]
      ensures r.Err? ==> r.error == Overflow && cells == old(cells)
    {
      match CheckedDec(cells[ptr]) {
        case Some(v) =>
          cells := cells[ptr := v];
          r := Ok(v);
        case None =>
          r := Err(Overflow);
      }
    }

    /** `inc_ptr`: move one cell right, allocating a zero cell on the first
        visit; `Overflow` at index `TAPE_LENGTH - 1` with nothing changed. */
    method IncPtr() returns (r: Result<nat, TapeError>)
      requires Valid()
      modifies this
      ensures Valid()
      ensures r.Ok? <==> old(ptr) + 1 < TAPE_LENGTH
      ensures r.Ok? ==> r.value == ptr == old(ptr) + 1
      ensures r.Ok? && old(ptr) + 1 == old(|cells|) ==> cells == old(cells) + [0]
      ensures r.Ok? && old(ptr) + 1 < old(|cells|) ==> cells == old(cells)
      ensures r.Err? ==> r.error == Overflow && ptr == old(ptr) && cells == old(cells)
    {
      if ptr + 1 < TAPE_LENGTH {
        var v := ptr + 1;
        if v >= |cells| {
          // Allocate the cell on its first visit.
          cells := cells + [0];
        }
        ptr := v;
        r := Ok(v);
      } else {
        r := Err(Overflow);
      }
    }

    /** `dec_ptr`: move one cell left, never releasing a cell; `Overflow` at
        the first cell with nothing changed. */
    method DecPtr() returns (r: Result<nat, TapeError>)
      requires Valid()
      modifies this
      ensures Valid() && cells == old(cells)
      ensures r.Ok? <==> old(ptr) > 0
      ensures r.Ok? ==> r.value == ptr && ptr + 1 == old(ptr)
      ensures r.Err? ==> r.error == Overflow && ptr == old(ptr)
    {
      if ptr > 0 {
        ptr := ptr - 1;
        r := Ok(ptr);
      } else {
        r := Err(Overflow);
      }
    }
  }

  /** The crate's tests for this tape, each on a fresh default tape: the
      values its current cell is read to hold, and how many cells exist
      after moving right once. */
  method VecTapeTests() returns (deref: bv8, derefMut: bv8, incVal: bv8, decVal: bv8)
    ensures deref == 0 && derefMut == 20 && incVal == 21 && decVal == 19
  {
    var t := new VecTape.Default();
    deref := t.Get();

    t := new VecTape.Default();
    var r := t.IncVal();
    assert r.Ok?;
    t.Set(20);
    derefMut := t.Get();

    t := new VecTape.Default();
    t.Set(20);
    r := t.IncVal();
    assert r.Ok?;
    incVal := t.Get();

    t := new VecTape.Default();
    t.Set(20);
    r := t.DecVal();
    assert r.Ok?;
    decVal := t.Get();
  }

  /** The pointer tests on a fresh default tape: the current cell after
      one move right and after moving back, and the number of cells once
      the first move right has grown the tape. */
  method VecTapePointerTests() returns (incPtr: bv8, decPtr: bv8, grown: nat)
    ensures incPtr == 0 && decPtr == 20 && grown == 2
  {
    var t := new VecTape.Default();
    t.Set(20);
    var p := t.IncPtr();
    assert p.Ok?;
    incPtr := t.Get();
    grown := |t.cells|;
    p := t.DecPtr();
    assert p.Ok?;
    decPtr := t.Get();
  }
}
