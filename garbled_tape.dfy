/** `GarbledTape` (src/tape/garbled_tape.rs): cells and pointer are stored
    XOR-ed with a key. Arithmetic is checked on the decoded values: a cell
    fails with `ValOverflow` / `ValUnderflow` outside 0..255, the pointer
    with `PtrOverflow` / `PtrUnderflow` outside the 64-bit `usize` range.
    Nothing keeps the stored pointer inside the array, so reading or
    writing the current cell demands it of the caller. */
module GarbledTapes {
  import opened Wrappers
  import opened Tapes

  /** The fixed key of the default tape. */
  const DEFAULT_KEY: bv64 := 37

  /** `key as u8`: the low byte of the key. */
  function KeyByte(key: bv64): bv8 {
    (key & 0xFF) as bv8
  }

  class GarbledTape {
    const cells: array<bv8>
    var ptr: bv64
    const key: bv64

    ghost predicate Valid()
      reads this
    {
      cells.Length == TAPE_LENGTH
    }

    /** The pointer as the program sees it. */
    function Pointer(): bv64
      reads this
    {
      ptr ^ key
    }

    /** `default`: key 37, and every stored cell and the stored pointer equal
        to it, so that every cell decodes to 0 and the pointer to 0. */
    constructor Default()
      ensures Valid() && fresh(cells)
      ensures key == DEFAULT_KEY && ptr == DEFAULT_KEY
      ensures forall i :: 0 <= i < cells.Length ==> cells[i] == 37
      ensures Pointer() == 0
      ensures forall i :: 0 <= i < cells.Length ==> cells[i] ^ KeyByte(key) == 0
    {
      key := DEFAULT_KEY;
      cells := new bv8[TAPE_LENGTH](_ => 37);
      ptr := DEFAULT_KEY;
    }

    /** `deref`: the stored current cell; indexing out of the array panics. */
    function Get(): (v: bv8)
      requires Valid() && ptr as nat < TAPE_LENGTH
      reads this, cells
      ensures v == cells[ptr as nat]
    {
      cells[ptr as nat]
    }

    /** `deref_mut`: overwrite the stored current cell and nothing else. */
    method Set(v: bv8)
      requires Valid() && ptr as nat < TAPE_LENGTH
      modifies cells
      ensures Valid() && Get() == v
      ensures forall i :: 0 <= i < cells.Length && i != ptr as nat ==> cells[i] == old(cells[i])
    {
      var at := ptr as nat;
      cells[at] := v;
    }

    /** `inc_val`: the decoded current cell plus one, stored encoded and
        returned decoded; `ValOverflow` at 255 with nothing changed. */
    method IncVal() returns (r: Result<bv8, TapeError>)
      requires Valid() && ptr as nat < TAPE_LENGTH
      modifies cells
      ensures Valid()
      ensures var d := old(cells[ptr as nat]) ^ KeyByte(key);
        && (r.Ok? <==> d < 255)
        && (r.Ok? ==> r.value == d + 1 && cells[ptr as nat] ^ KeyByte(key) == r.value)
        && (r.Err? ==> r.error == ValOverflow && cells[ptr as nat] == old(cells[ptr as nat]))
      ensures forall i :: 0 <= i < cells.Length && i != ptr as nat ==> cells[i] == old(cells[i])
    {
      match CheckedInc(cells[ptr as nat] ^ KeyByte(key)) {
        case Some(v) =>
          cells[ptr as nat] := v ^ KeyByte(key);
          r := Ok(v);
        case None =>
          r := Err(ValOverflow);
      }
    }

    /** `dec_val`: the decoded current cell minus one, stored encoded and
        returned decoded; `ValUnderflow` at 0 with nothing changed. */
    method DecVal() returns (r: Result<bv8, TapeError>)
      requires Valid() && ptr as nat < TAPE_LENGTH
      modifies cells
      ensures Valid()
      ensures var d := old(cells[ptr as nat]) ^ KeyByte(key);
        && (r.Ok? <==> d > 0)
        && (r.Ok? ==> r.value == d - 1 && cells[ptr as nat] ^ KeyByte(key) == r.value)
        && (r.Err? ==> r.error == ValUnderflow && cells[ptr as nat] == old(cells[ptr as nat]))
      ensures forall i :: 0 <= i < cells.Length && i != ptr as nat ==> cells[i] == old(cells[i])
    {
      match CheckedDec(cells[ptr as nat] ^ KeyByte(key)) {
        case Some(v) =>
          cells[ptr as nat] := v ^ KeyByte(key);
          r := Ok(v);
        case None =>
          r := Err(ValUnderflow);
      }
    }

    /** `inc_ptr`: the decoded pointer plus one, stored encoded; the
        stored value is returned. `PtrOverflow` only when the decoded pointer
        is the largest `usize`. */
    method IncPtr() returns (r: Result<bv64, TapeError>)
      requires Valid()
      modifies this
      ensures Valid()
      ensures r.Ok? <==> old(Pointer()) < 0xFFFF_FFFF_FFFF_FFFF
      ensures r.Ok? ==> r.value == ptr && Pointer() == old(Pointer()) + 1
      ensures r.Err? ==> r.error == PtrOverflow && ptr == old(ptr)
      ensures cells[..] == old(cells[..])
    {
      var d := ptr ^ key;
      if d < 0xFFFF_FFFF_FFFF_FFFF {
        var v := (d + 1) ^ key;
        ptr := v;
        r := Ok(v);
      } else {
        r := Err(PtrOverflow);
      }
    }

    /** `dec_ptr`: the decoded pointer minus one, stored encoded; the stored
        value is returned. `PtrUnderflow` when the decoded pointer is 0. */
    method DecPtr() returns (r: Result<bv64, TapeError>)
      requires Valid()
      modifies this
      ensures Valid()
      ensures r.Ok? <==> old(Pointer()) > 0
      ensures r.Ok? ==> r.value == ptr && Pointer() == old(Pointer()) - 1
      ensures r.Err? ==> r.error == PtrUnderflow && ptr == old(ptr)
      ensures cells[..] == old(cells[..])
    {
      var d := ptr ^ key;
      if d > 0 {
        var v := (d - 1) ^ key;
        ptr := v;
        r := Ok(v);
      } else {
        r := Err(PtrUnderflow);
      }
    }
  }

  /** The crate's tests for this tape, each on a fresh default tape: the
      stored values its current cell is read to hold, and the stored pointer
      after one move right. */
  method GarbledTapeTests() returns (deref: bv8, derefMut: bv8, incVal: bv8, decVal: bv8)
    ensures deref == 37 && derefMut == 42 && incVal == 53 && decVal == 43
  {
    var t := new GarbledTape.Default();
    deref := t.Get();

    t := new GarbledTape.Default();
    t.Set(42);
    derefMut := t.Get();

    t := new GarbledTape.Default();
    t.Set(42);
    var r := t.IncVal();
    assert r.Ok?;
    incVal := t.Get();

    t := new GarbledTape.Default();
    t.Set(42);
    r := t.DecVal();
    assert r.Ok?;
    decVal := t.Get();
  }

  /** The pointer tests on a fresh default tape: the stored cell after one
      move right and after moving back, and the stored (encoded) pointer
      after the move right. */
  method GarbledTapePointerTests() returns (incPtr: bv8, decPtr: bv8, movedTo: bv64)
    ensures incPtr == 37 && decPtr == 42 && movedTo == 36
  {
    var t := new GarbledTape.Default();
    t.Set(42);
    var p := t.IncPtr();
    assert p.Ok?;
    movedTo := t.ptr;
    incPtr := t.Get();
    p := t.DecPtr();
    assert p.Ok?;
    decPtr := t.Get();
  }
}
