/** The old tape (src/tape.rs) that the interpreter runs on: 30000 byte
    cells and a pointer, changed through the operators `+=`, `-=`, `>>=`
    and `<<=`, each of which panics instead of overflowing. The operators
    are specified by pure functions on a `TapeState`, where `None` is the
    panic; the same functions give the interpreter its semantics. */
module LegacyTapes {
  import opened Wrappers

  /** A `u8`. */
  newtype Byte = b: int | 0 <= b < 256

  /** The cell count of `Tape<[u8; 30000]>`. */
  const CELLS: nat := 30000

  /** The cells and the pointer of a tape. */
  datatype TapeState = TapeState(cells: seq<Byte>, ptr: nat)

  /** The pointer is always inside the cells. */
  predicate ValidState(t: TapeState) {
    |t.cells| == CELLS && t.ptr < CELLS
  }

  /** `new`: every cell 0, pointer at the first cell. */
  function Blank(): (t: TapeState)
    ensures ValidState(t) && t.ptr == 0
    ensures forall i :: 0 <= i < |t.cells| ==> t.cells[i] == 0
  {
    TapeState(seq(CELLS, _ => 0), 0)
  }

  /** `deref`: the current cell. */
  function Current(t: TapeState): Byte
    requires ValidState(t)
  {
    t.cells[t.ptr]
  }

  /** `deref_mut`: the tape with its current cell replaced by `v`. */
  function Store(t: TapeState, v: Byte): (r: TapeState)
    requires ValidState(t)
    ensures ValidState(r) && r.ptr == t.ptr && Current(r) == v
    ensures forall i :: 0 <= i < CELLS && i != t.ptr ==> r.cells[i] == t.cells[i]
  {
    t.(cells := t.cells[t.ptr := v])
  }

  /** `+= n`: the current cell raised by `n`, or a panic when the sum
      exceeds 255. */
  function Add(t: TapeState, n: Byte): (r: Option<TapeState>)
    requires ValidState(t)
    ensures r.Some? <==> Current(t) as int + n as int <= 255
    ensures r.Some? ==> ValidState(r.value) && r.value.ptr == t.ptr
    ensures r.Some? ==> Current(r.value) as int == Current(t) as int + n as int
    ensures r.Some? ==> forall i :: 0 <= i < CELLS && i != t.ptr ==> r.value.cells[i] == t.cells[i]
  {
    if Current(t) as int + n as int <= 255 then Some(Store(t, Current(t) + n)) else None
  }

  /** `-= n`: the current cell lowered by `n`, or a panic when that would
      go below 0. */
  function Sub(t: TapeState, n: Byte): (r: Option<TapeState>)
    requires ValidState(t)
    ensures r.Some? <==> n <= Current(t)
    ensures r.Some? ==> ValidState(r.value) && r.value.ptr == t.ptr
    ensures r.Some? ==> Current(r.value) == Current(t) - n
    ensures r.Some? ==> forall i :: 0 <= i < CELLS && i != t.ptr ==> r.value.cells[i] == t.cells[i]
  {
    if n <= Current(t) then Some(Store(t, Current(t) - n)) else None
  }

  /** `>>= n`: the pointer moved `n` cells right, or a panic when it would
      leave the tape. Cells are untouched. */
  function ShiftRight(t: TapeState, n: nat): (r: Option<TapeState>)
    requires ValidState(t)
    ensures r.Some? <==> t.ptr + n < CELLS
    ensures r.Some? ==> ValidState(r.value) && r.value.cells == t.cells && r.value.ptr == t.ptr + n
  {
    if t.ptr + n < CELLS then Some(t.(ptr := t.ptr + n)) else None
  }

  /** `<<= n`: the pointer moved `n` cells left, or a panic when it would
      go below 0. Cells are untouched. */
  function ShiftLeft(t: TapeState, n: nat): (r: Option<TapeState>)
    requires ValidState(t)
    ensures r.Some? <==> n <= t.ptr
    ensures r.Some? ==> ValidState(r.value) && r.value.cells == t.cells && r.value.ptr + n == t.ptr
  {
    if n <= t.ptr then Some(t.(ptr := t.ptr - n)) else None
  }

  /** Lowering a cell undoes raising it, and the reverse. */
  lemma AddSubInverse(t: TapeState, n: Byte)
    requires ValidState(t)
    ensures Add(t, n).Some? ==> Sub(Add(t, n).value, n) == Some(t)
    ensures Sub(t, n).Some? ==> Add(Sub(t, n).value, n) == Some(t)
  {
    if Add(t, n).Some? {
      assert Sub(Add(t, n).value, n).value.cells == t.cells;
    }
    if Sub(t, n).Some? {
      assert Add(Sub(t, n).value, n).value.cells == t.cells;
    }
  }

  /** Moving left undoes moving right, and the reverse. */
  lemma ShiftInverse(t: TapeState, n: nat)
    requires ValidState(t)
    ensures ShiftRight(t, n).Some? ==> ShiftLeft(ShiftRight(t, n).value, n) == Some(t)
    ensures ShiftLeft(t, n).Some? ==> ShiftRight(ShiftLeft(t, n).value, n) == Some(t)
  {
  }

  /** `Tape<[u8; 30000]>`: the cells in place, the pointer as a field. */
  class Tape {
    const cells: array<Byte>
    var ptr: nat

    ghost predicate Valid()
      reads this
    {
      cells.Length == CELLS && ptr < CELLS
    }

    /** The tape as a value. */
    ghost function View(): TapeState
      reads this, cells
    {
      TapeState(cells[..], ptr)
    }

    /** `new`. */
    constructor New()
      ensures Valid() && fresh(cells)
      ensures View() == Blank()
    {
      cells := new Byte[CELLS](_ => 0);
      ptr := 0;
    }

    /** `deref`. */
    function Deref(): (v: Byte)
      requires Valid()
      reads this, cells
      ensures ValidState(View()) && v == Current(View())
    {
      cells[ptr]
    }

    /** `deref_mut`. */
    method DerefMut(v: Byte)
      requires Valid()
      modifies cells
      ensures Valid()
      ensures ValidState(old(View())) && View() == Store(old(View()), v)
    {
      cells[ptr] := v;
    }

    /** `+= n`; `panicked` is the panic, with the tape unchanged. */
    method AddAssign(n: Byte) returns (panicked: bool)
      requires Valid()
      modifies cells
      ensures Valid() && ValidState(old(View()))
      ensures panicked <==> Add(old(View()), n).None?
      ensures View() == if panicked then old(View()) else Add(old(View()), n).value
    {
      if cells[ptr] as int + n as int <= 255 {
        cells[ptr] := cells[ptr] + n;
        panicked := false;
      } else {
        panicked := true;
      }
    }

    /** `-= n`; `panicked` is the panic, with the tape unchanged. */
    method SubAssign(n: Byte) returns (panicked: bool)
      requires Valid()
      modifies cells
      ensures Valid() && ValidState(old(View()))
      ensures panicked <==> Sub(old(View()), n).None?
      ensures View() == if panicked then old(View()) else Sub(old(View()), n).value
    {
      if n <= cells[ptr] {
        cells[ptr] := cells[ptr] - n;
        panicked := false;
      } else {
        panicked := true;
      }
    }

    /** `>>= n`; `panicked` is the panic, with the tape unchanged. */
    method ShrAssign(n: nat) returns (panicked: bool)
      requires Valid()
      modifies this
      ensures Valid() && ValidState(old(View()))
      ensures panicked <==> ShiftRight(old(View()), n).None?
      ensures View() == if panicked then old(View()) else ShiftRight(old(View()), n).value
    {
      if ptr + n < CELLS {
        ptr := ptr + n;
        panicked := false;
      } else {
        panicked := true;
      }
    }

    /** `<<= n`; `panicked` is the panic, with the tape unchanged. */
    method ShlAssign(n: nat) returns (panicked: bool)
      requires Valid()
      modifies this
      ensures Valid() && ValidState(old(View()))
      ensures panicked <==> ShiftLeft(old(View()), n).None?
      ensures View() == if panicked then old(View()) else ShiftLeft(old(View()), n).value
    {
      if n <= ptr {
        ptr := ptr - n;
        panicked := false;
      } else {
        panicked := true;
      }
    }
  }

  /** The crate's tests for this tape, each on a fresh tape: the values its
      current cell is read to hold. */
  method LegacyTapeTests() returns (deref: Byte, derefMut: Byte, addAssign: Byte, subAssign: Byte, shr: Byte, shl: Byte)
    ensures deref == 0 && derefMut == 20 && addAssign == 6 && subAssign == 4
    ensures shr == 0 && shl == 4
  {
    var t := new Tape.New();
    deref := t.Deref();

    t := new Tape.New();
    t.DerefMut(20);
    derefMut := t.Deref();

    t := new Tape.New();
    t.DerefMut(5);
    var panicked := t.AddAssign(1);
    addAssign := t.Deref();

    t := new Tape.New();
    t.DerefMut(5);
    panicked := t.SubAssign(1);
    subAssign := t.Deref();

    t := new Tape.New();
    panicked := t.AddAssign(4);
    panicked := t.ShrAssign(1);
    shr := t.Deref();
    panicked := t.ShlAssign(1);
    shl := t.Deref();
  }
}
