/** `Mod256ArrayTape` (src/tape/mod256_array_tape.rs): cell values wrap
    modulo 256 and never fail; pointer moves are checked and report
    `PtrOverflow` / `PtrUnderflow`. */
module Mod256ArrayTapes {
  import opened Wrappers
  import opened Tapes

  class Mod256ArrayTape {
    const cells: array<bv8>
    var ptr: nat

    /** The pointer always indexes the array. */
    ghost predicate Valid()
      reads this
    {
      cells.Length == TAPE_LENGTH && ptr < TAPE_LENGTH
    }

    /** `default`: every cell 0, pointer at the first cell. */
    constructor Default()
      ensures Valid() && fresh(cells)
      ensures ptr == 0
      ensures forall i :: 0 <= i < cells.Length ==> cells[i] == 0
    {
      cells := new bv8[TAPE_LENGTH](_ => 0);
      ptr := 0;
    }

    /** `deref`: the current cell. */
    function Get(): (v: bv8)
      requires Valid()
      reads this, cells
      ensures v == cells[ptr]
    {
      cells[ptr]
    }

    /** `deref_mut`: overwrite the current cell and nothing else. */
    method Set(v: bv8)
      requires Valid()
      modifies cells
      ensures Valid() && Get() == v
      ensures forall i :: 0 <= i < cells.Length && i != ptr ==> cells[i] == old(cells[i])
    {
      cells[ptr] := v;
    }

    /** `inc_val`: the current cell plus one modulo 256; never fails. */
    method IncVal() returns (r: Result<bv8, TapeError>)
      requires Valid()
      modifies cells
      ensures Valid() && r.Ok?
      ensures r.value == cells[ptr] == WrappingInc(old(cells[ptr]))
      ensures forall i :: 0 <= i < cells.Length && i != ptr ==> cells[i] == old(cells[i])
    {
      var v := WrappingInc(cells[ptr]);
      cells[ptr] := v;
      r := Ok(v);
    }

    /** `dec_val`: the current cell minus one modulo 256; never fails. */
    method DecVal() returns (r: Result<bv8, TapeError>)
      requires Valid()
      modifies cells
      ensures Valid() && r.Ok?
      ensures r.value == cells[ptr] == WrappingDec(old(cells[ptr]))
      ensures forall i :: 0 <= i < cells.Length && i != ptr ==> cells[i] == old(cells[i])
    {
      var v := WrappingDec(cells[ptr]);
      cells[ptr] := v;
      r := Ok(v);
    }

    /** `inc_ptr`: move one cell right, or `PtrOverflow` at the last cell with nothing changed. */
    method IncPtr() returns (r: Result<nat, TapeError>)
      requires Valid()
      modifies this
      ensures Valid()
      ensures r.Ok? <==> old(ptr) + 1 < TAPE_LENGTH
      ensures r.Ok? ==> r.value == ptr == old(ptr) + 1
      ensures r.Err? ==> r.error == PtrOverflow && ptr == old(ptr)
      ensures cells[..] == old(cells[..])
    {
      if ptr + 1 < TAPE_LENGTH {
        ptr := ptr + 1;
        r := Ok(ptr);
      } else {
        r := Err(PtrOverflow);
      }
    }

    /** `dec_ptr`: move one cell left, or `PtrUnderflow` at the first cell with nothing changed. */
    method DecPtr() returns (r: Result<nat, TapeError>)
      requires Valid()
      modifies this
      ensures Valid()
      ensures r.Ok? <==> old(ptr) > 0
      ensures r.Ok? ==> r.value == ptr && ptr + 1 == old(ptr)
      ensures r.Err? ==> r.error == PtrUnderflow && ptr == old(ptr)
      ensures cells[..] == old(cells[..])
    {
      if ptr > 0 {
        ptr := ptr - 1;
        r := Ok(ptr);
      } else {
        r := Err(PtrUnderflow);
      }
    }
  }

  /** The shared tape tests (src/tape/mod.rs) on this tape. */
  method Mod256ArrayTapeTests() returns (deref: bv8, derefMut: bv8, incVal: bv8, decVal: bv8)
    ensures deref == 0 && derefMut == 20 && incVal == 21 && decVal == 19
  {
    var t := new Mod256ArrayTape.Default();
    deref := t.Get();

    t := new Mod256ArrayTape.Default();
    var r := t.IncVal();
    t.Set(20);
    derefMut := t.Get();

    t := new Mod256ArrayTape.Default();
    t.Set(20);
    r := t.IncVal();
    incVal := t.Get();

    t := new Mod256ArrayTape.Default();
    t.Set(20);
    r := t.DecVal();
    decVal := t.Get();
  }

  /** The pointer tests on a fresh default tape: the current cell after
      one move right and after moving back. */
  method Mod256ArrayTapePointerTests() returns (incPtr: bv8, decPtr: bv8)
    ensures incPtr == 0 && decPtr == 20
  {
    var t := new Mod256ArrayTape.Default();
    t.Set(20);
    var p := t.IncPtr();
    assert p.Ok?;
    incPtr := t.Get();
    p := t.DecPtr();
    assert p.Ok?;
    decPtr := t.Get();
  }

  /** The two wrap-arounds: 255 goes up to 0 and 0 goes down to 255. */
  method Mod256ArrayTapeWraps() returns (wrapUp: bv8, wrapDown: bv8)
    ensures wrapUp == 0 && wrapDown == 255
  {
    var t := new Mod256ArrayTape.Default();
    t.Set(255);
    var r := t.IncVal();
    wrapUp := t.Get();
    r := t.DecVal();
    wrapDown := t.Get();
  }
}
