/** The interpreter's semantics as a pure state machine
    (src/interpreter.rs): one `Step` fetches the instruction at `pc` and
    executes it on the old tape (src/tape.rs); `Run` repeats steps until the
    program ends, a step fails, or the tape panics. The class `Interpreter`
    is proved to follow these functions. */
module Machines {
  import opened Wrappers
  import opened Instructions
  import opened LegacyTapes
  import opened Errors
  import LegacyPrograms
  import Brackets

  /** The number of instructions allowed to execute before a step reports
      `CycleLimit` (src/lib.rs). */
  const CYCLE_LIMIT: nat := 10_000_000

  /** The fields of an interpreter. The reader is the input not yet
      consumed; the writer is everything written so far. */
  datatype Machine = Machine(
    program: Option<LegacyPrograms.Program>,
    reader: Option<seq<Byte>>,
    writer: Option<seq<Byte>>,
    tape: TapeState,
    pc: nat,
    cycles: nat)

  predicate Valid(m: Machine) {
    ValidState(m.tape)
  }

  /** `Interpreter::new`: no program, no streams, a blank tape, `pc` and
      `cycles` at 0. */
  function Initial(): (m: Machine)
    ensures Valid(m) && m.program.None? && m.reader.None? && m.writer.None?
    ensures m.tape == Blank() && m.pc == 0 && m.cycles == 0
  {
    Machine(None, None, None, Blank(), 0, 0)
  }

  /** `load`: install a program and restart it; tape and cycles are kept. */
  function Load(m: Machine, p: LegacyPrograms.Program): (r: Machine)
    ensures r.program == Some(p) && r.pc == 0
    ensures r.tape == m.tape && r.cycles == m.cycles && r.reader == m.reader && r.writer == m.writer
  {
    m.(program := Some(p), pc := 0)
  }

  /** Whether a jump instruction takes its jump on the current cell. */
  predicate Jumps(m: Machine, i: Instruction)
    requires Valid(m)
  {
    (i.SkipForward? && Current(m.tape) == 0) || (i.SkipBackward? && Current(m.tape) != 0)
  }

  /** The effect of one instruction before `pc` advances; `None` is a
      panic of the tape. Only the four tape operators can panic; a taken
      jump sets `pc` to its target, and nothing else touches `pc`. */
  function Effect(m: Machine, i: Instruction): (r: Option<Machine>)
    requires Valid(m)
    ensures r.None? <==>
      || (i == IncPtr && m.tape.ptr + 1 >= CELLS)
      || (i == DecPtr && m.tape.ptr == 0)
      || (i == IncVal && Current(m.tape) == 255)
      || (i == DecVal && Current(m.tape) == 0)
    ensures r.Some? ==> Valid(r.value) && r.value.program == m.program && r.value.cycles == m.cycles
    ensures r.Some? ==> r.value.pc == if Jumps(m, i) then i.target else m.pc
  {
    match i
    case IncPtr =>
      (match ShiftRight(m.tape, 1) case None => None case Some(t) => Some(m.(tape := t)))
    case DecPtr =>
      (match ShiftLeft(m.tape, 1) case None => None case Some(t) => Some(m.(tape := t)))
    case IncVal =>
      (match Add(m.tape, 1) case None => None case Some(t) => Some(m.(tape := t)))
    case DecVal =>
      (match Sub(m.tape, 1) case None => None case Some(t) => Some(m.(tape := t)))
    case Output =>
      (match m.writer
       case None => Some(m)
       case Some(w) => Some(m.(writer := Some(w + [Current(m.tape)]))))
    case Input =>
      (match m.reader
       case Some(bytes) =>
         if bytes == [] then Some(m) else Some(m.(tape := Store(m.tape, bytes[0]), reader := Some(bytes[1..])))
       case None => Some(m))
    case SkipForward(target) =>
      if Current(m.tape) == 0 then Some(m.(pc := target)) else Some(m)
    case SkipBackward(target) =>
      if Current(m.tape) != 0 then Some(m.(pc := target)) else Some(m)
  }

  /** `execute`: the instruction's effect, then `pc` advanced by one. A
      taken jump therefore resumes just after its target; anything else
      resumes at the next instruction. Only the four tape operations can
      panic, exactly where the tape's operators do. */
  function Execute(m: Machine, i: Instruction): (r: Option<Machine>)
    requires Valid(m)
    ensures r.None? <==>
      || (i == IncPtr && m.tape.ptr + 1 >= CELLS)
      || (i == DecPtr && m.tape.ptr == 0)
      || (i == IncVal && Current(m.tape) == 255)
      || (i == DecVal && Current(m.tape) == 0)
    ensures r.Some? ==> Valid(r.value) && r.value.program == m.program && r.value.cycles == m.cycles
    ensures r.Some? ==> r.value.pc == if Jumps(m, i) then i.target + 1 else m.pc + 1
    ensures r.Some? && !(i.IncPtr? || i.DecPtr?) ==> r.value.tape.ptr == m.tape.ptr
    ensures r.Some? && !(i.IncVal? || i.DecVal? || i.Input?) ==> r.value.tape.cells == m.tape.cells
    ensures r.Some? && !i.Output? ==> r.value.writer == m.writer
    ensures r.Some? && !i.Input? ==> r.value.reader == m.reader
    ensures r.Some? && i == IncPtr ==> r.value.tape == ShiftRight(m.tape, 1).value
    ensures r.Some? && i == DecPtr ==> r.value.tape == ShiftLeft(m.tape, 1).value
    ensures r.Some? && i == IncVal ==> r.value.tape == Add(m.tape, 1).value
    ensures r.Some? && i == DecVal ==> r.value.tape == Sub(m.tape, 1).value
    ensures r.Some? && i == Output ==>
      r.value.writer == (if m.writer.None? then None else Some(m.writer.value + [Current(m.tape)]))
    ensures r.Some? && i == Input ==>
      if m.reader.Some? && m.reader.value != [] then
        r.value.tape == Store(m.tape, m.reader.value[0]) && r.value.reader == Some(m.reader.value[1..])
      else
        r.value.tape == m.tape && r.value.reader == m.reader
  {
    match Effect(m, i)
    case None => None
    case Some(e) => Some(e.(pc := e.pc + 1))
  }

  /** What `step` returns: `Done` is `Ok(None)`, `Stepped(i)` is
      `Ok(Some(Ok(i)))`, `Failed(e)` is `Ok(Some(Err(e)))`, `Fatal(e)` is
      `Err(e)`, and `Panicked` is a panic of the tape. */
  datatype StepResult = Done | Stepped(instruction: Instruction) | Failed(error: Error) | Fatal(error: Error) | Panicked

  /** `step` under a cycle limit. */
  function Step(m: Machine, limit: nat): (r: (StepResult, Machine))
    requires Valid(m)
    ensures Valid(r.1)
    ensures !r.0.Stepped? ==> r.1 == m
    ensures r.0 == Failed(CycleLimit) <==> m.cycles >= limit
    ensures r.0 == Fatal(NoProgram) <==> m.cycles < limit && m.program.None?
    ensures r.0.Done? <==> m.cycles < limit && m.program.Some? && m.pc >= |m.program.value.asl|
    ensures r.0.Failed? ==> r.0.error == CycleLimit
    ensures r.0.Fatal? ==> r.0.error == NoProgram
    ensures r.0.Stepped? <==>
      m.cycles < limit && m.program.Some? && m.pc < |m.program.value.asl| &&
      Execute(m, m.program.value.asl[m.pc]).Some?
    ensures r.0.Panicked? <==>
      m.cycles < limit && m.program.Some? && m.pc < |m.program.value.asl| &&
      Execute(m, m.program.value.asl[m.pc]).None?
    ensures r.0.Stepped? ==>
      && m.cycles < limit && m.program.Some? && m.pc < |m.program.value.asl|
      && r.0.instruction == m.program.value.asl[m.pc]
      && r.1.cycles == m.cycles + 1
      && Execute(m, r.0.instruction) == Some(r.1.(cycles := m.cycles))
  {
    if m.cycles >= limit then (Failed(CycleLimit), m)
    else match m.program
      case None => (Fatal(NoProgram), m)
      case Some(p) =>
        match LegacyPrograms.Get(p, m.pc)
        case None => (Done, m)
        case Some(i) =>
          match Execute(m, i)
          case None => (Panicked, m)
          case Some(e) => (Stepped(i), e.(cycles := m.cycles + 1))
  }

  /** How a run ends: `Finished` is `Ok(())`, `Stopped(e)` is `Err(e)`, and
      `Aborted` is a panic of the tape. */
  datatype RunResult = Finished | Stopped(error: Error) | Aborted

  /** `run_with_callback` under a cycle limit: the outcome, the final
      machine, and the instructions handed to the hook, one per successful
      step. `run` is the same loop without the hook. */
  function Run(m: Machine, limit: nat): (r: (RunResult, Machine, seq<Instruction>))
    requires Valid(m)
    ensures Valid(r.1) && r.1.program == m.program
    ensures !Step(r.1, limit).0.Stepped?
    ensures r.0 == Finished <==> Step(r.1, limit).0.Done?
    ensures r.0 == Aborted <==> Step(r.1, limit).0.Panicked?
    ensures r.0.Stopped? <==> Step(r.1, limit).0.Failed? || Step(r.1, limit).0.Fatal?
    ensures r.0.Stopped? ==> r.0.error == Step(r.1, limit).0.error
    decreases limit - m.cycles
  {
    var (s, m') := Step(m, limit);
    match s
    case Done => (Finished, m', [])
    case Stepped(i) =>
      var (result, last, calls) := Run(m', limit);
      (result, last, [i] + calls)
    case Failed(e) => (Stopped(e), m', [])
    case Fatal(e) => (Stopped(e), m', [])
    case Panicked => (Aborted, m', [])
  }

  /** Every run ends, having made exactly one hook call per successful
      step and never more steps than the limit leaves; a run that reports
      `CycleLimit` has used the limit up. */
  lemma {:induction false} RunBounded(m: Machine, limit: nat)
    requires Valid(m) && m.cycles <= limit
    ensures var (result, last, calls) := Run(m, limit);
      && Valid(last)
      && last.cycles == m.cycles + |calls|
      && last.cycles <= limit
      && (result == Stopped(CycleLimit) <==> last.cycles == limit)
    decreases limit - m.cycles
  {
    var (s, m') := Step(m, limit);
    if s.Stepped? {
      RunBounded(m', limit);
    }
  }

  /** Each hook call receives the instruction the step executed: the
      program's instruction at the `pc` of that step. */
  lemma {:induction false} RunCallsFetched(m: Machine, limit: nat)
    requires Valid(m)
    ensures var (_, _, calls) := Run(m, limit);
      calls != [] ==> m.program.Some? && m.pc < |m.program.value.asl| && calls[0] == m.program.value.asl[m.pc]
    ensures var (_, _, calls) := Run(m, limit);
      forall k :: 0 <= k < |calls| ==> calls[k] in m.program.value.asl
    decreases limit - m.cycles
  {
    var (s, m') := Step(m, limit);
    if s.Stepped? {
      RunCallsFetched(m', limit);
    }
  }

  /** One successful step at the head of a run. */
  lemma RunUnfold(m: Machine, limit: nat)
    requires Valid(m) && Step(m, limit).0.Stepped?
    ensures var (s, m') := Step(m, limit);
      Run(m, limit) == (Run(m', limit).0, Run(m', limit).1, [s.instruction] + Run(m', limit).2)
  {
  }

  /** A run whose next step ends it. */
  lemma RunStops(m: Machine, limit: nat)
    requires Valid(m) && !Step(m, limit).0.Stepped?
    ensures Run(m, limit).1 == m && Run(m, limit).2 == []
    ensures Step(m, limit).0.Done? ==> Run(m, limit).0 == Finished
    ensures Step(m, limit).0.Failed? ==> Run(m, limit).0 == Stopped(Step(m, limit).0.error)
    ensures Step(m, limit).0.Fatal? ==> Run(m, limit).0 == Stopped(Step(m, limit).0.error)
    ensures Step(m, limit).0.Panicked? ==> Run(m, limit).0 == Aborted
  {
  }

  /** `,` with bytes waiting stores the first byte in the current cell and
      consumes it; `.` then writes that cell. */
  lemma InputExample()
    ensures var m := Initial().(reader := Some([7, 9]), writer := Some([]));
      && Execute(m, Input).Some?
      && Current(Execute(m, Input).value.tape) == 7
      && Execute(m, Input).value.reader == Some([9])
      && Execute(Execute(m, Input).value, Output).value.writer == Some([7])
  {
    var m := Initial().(reader := Some([7, 9]), writer := Some([]));
    assert [7, 9][1..] == [9];
    var t := Store(m.tape, 7);
    assert [] + [Current(t)] == [7];
  }

  /** The program of `+[]`: raise the cell, then loop while it is nonzero. */
  const SPIN: LegacyPrograms.Program := LegacyPrograms.Program([IncVal, SkipForward(2), SkipBackward(1)])

  /** The program of `++>+.`. */
  const BUMP: LegacyPrograms.Program := LegacyPrograms.Program([IncVal, IncVal, IncPtr, IncVal, Output])

  /** The program of `+,.`. */
  const ECHO: LegacyPrograms.Program := LegacyPrograms.Program([IncVal, Input, Output])

  /** The source of the crate's cycle-limit example parses to `SPIN`. */
  lemma SpinParses()
    ensures LegacyPrograms.Parsed("+[]") == Some(SPIN)
  {
    assert Brackets.Consume("+[]", [], []) == Brackets.Scanned(SPIN.asl, []);
  }

  /** The source of the crate's `run` tests parses to `BUMP`. */
  lemma BumpParses()
    ensures LegacyPrograms.Parsed("++>+.") == Some(BUMP)
  {
    assert Brackets.Consume("++>+.", [], []) == Brackets.Scanned(BUMP.asl, []);
  }

  /** The source of the crate's `empty_io` test parses to `ECHO`. */
  lemma EchoParses()
    ensures LegacyPrograms.Parsed("+,.") == Some(ECHO)
  {
    assert Brackets.Consume("+,.", [], []) == Brackets.Scanned(ECHO.asl, []);
  }

  /** Inside its loop, `+[]` repeats its `]` until the limit is used up. */
  lemma {:induction false} SpinsUntilLimit(m: Machine, limit: nat)
    requires Valid(m) && m.program == Some(SPIN) && m.pc == 2 && Current(m.tape) != 0 && m.cycles <= limit
    ensures Run(m, limit) == (Stopped(CycleLimit), m.(cycles := limit), seq(limit - m.cycles, _ => SkipBackward(1)))
    decreases limit - m.cycles
  {
    if m.cycles < limit {
      var m' := m.(cycles := m.cycles + 1);
      assert Step(m, limit) == (Stepped(SkipBackward(1)), m');
      RunUnfold(m, limit);
      SpinsUntilLimit(m', limit);
      assert seq(limit - m.cycles, _ => SkipBackward(1)) == [SkipBackward(1)] + seq(limit - m'.cycles, _ => SkipBackward(1));
    } else {
      RunStops(m, limit);
      assert m.(cycles := limit) == m;
      assert seq(limit - m.cycles, _ => SkipBackward(1)) == [];
    }
  }

  /** The cycle limit is a safety valve: `+[]` never finishes on its own,
      and any limit stops it with `CycleLimit` after exactly that many
      successful steps. */
  lemma InfiniteLoopHitsCycleLimit(limit: nat)
    ensures var (result, last, calls) := Run(Load(Initial(), SPIN), limit);
      result == Stopped(CycleLimit) && last.cycles == limit && |calls| == limit
  {
    var m0 := Load(Initial(), SPIN);
    if limit == 0 {
      RunStops(m0, limit);
    } else {
      var t := Add(Blank(), 1).value;
      var m1 := m0.(tape := t, pc := 1, cycles := 1);
      assert Step(m0, limit) == (Stepped(IncVal), m1);
      RunUnfold(m0, limit);
      if limit == 1 {
        RunStops(m1, limit);
      } else {
        var m2 := m1.(pc := 2, cycles := 2);
        assert Step(m1, limit) == (Stepped(SkipForward(2)), m2);
        RunUnfold(m1, limit);
        SpinsUntilLimit(m2, limit);
      }
    }
  }

  /** The crate's `run` and `run_with_callback` tests: `++>+.` finishes, and
      the hook is called five times, once per instruction. */
  lemma RunExample()
    ensures var (result, _, calls) := Run(Load(Initial(), BUMP), CYCLE_LIMIT);
      result == Finished && calls == BUMP.asl && |calls| == 5
  {
    var m0 := Load(Initial(), BUMP);
    var t1 := Add(m0.tape, 1).value;
    var m1 := m0.(tape := t1, pc := 1, cycles := 1);
    assert Step(m0, CYCLE_LIMIT) == (Stepped(IncVal), m1);
    var t2 := Add(t1, 1).value;
    var m2 := m1.(tape := t2, pc := 2, cycles := 2);
    assert Step(m1, CYCLE_LIMIT) == (Stepped(IncVal), m2);
    var t3 := ShiftRight(t2, 1).value;
    var m3 := m2.(tape := t3, pc := 3, cycles := 3);
    assert Step(m2, CYCLE_LIMIT) == (Stepped(IncPtr), m3);
    assert Current(t3) == 0;
    var t4 := Add(t3, 1).value;
    var m4 := m3.(tape := t4, pc := 4, cycles := 4);
    assert Step(m3, CYCLE_LIMIT) == (Stepped(IncVal), m4);
    var m5 := m4.(pc := 5, cycles := 5);
    assert Step(m4, CYCLE_LIMIT) == (Stepped(Output), m5);
    assert Step(m5, CYCLE_LIMIT) == (Done, m5);
    RunStops(m5, CYCLE_LIMIT);
    RunUnfold(m4, CYCLE_LIMIT);
    RunUnfold(m3, CYCLE_LIMIT);
    RunUnfold(m2, CYCLE_LIMIT);
    RunUnfold(m1, CYCLE_LIMIT);
    RunUnfold(m0, CYCLE_LIMIT);
  }

  /** The crate's `empty_io` test: with an exhausted reader, `,` leaves the
      cell at 1, and `.` writes that 1. */
  lemma EmptyIoExample()
    ensures var (result, last, _) := Run(Load(Machine(None, Some([]), Some([]), Blank(), 0, 0), ECHO), CYCLE_LIMIT);
      result == Finished && last.writer == Some([1])
  {
    var m0 := Load(Machine(None, Some([]), Some([]), Blank(), 0, 0), ECHO);
    var t1 := Add(m0.tape, 1).value;
    assert Current(t1) == 1;
    var m1 := m0.(tape := t1, pc := 1, cycles := 1);
    assert Step(m0, CYCLE_LIMIT) == (Stepped(IncVal), m1);
    var m2 := m1.(pc := 2, cycles := 2);
    assert Step(m1, CYCLE_LIMIT) == (Stepped(Input), m2);
    var m3 := m2.(writer := Some([1]), pc := 3, cycles := 3);
    assert [] + [Current(t1)] == [1];
    assert Step(m2, CYCLE_LIMIT) == (Stepped(Output), m3);
    assert Step(m3, CYCLE_LIMIT) == (Done, m3);
    RunStops(m3, CYCLE_LIMIT);
    RunUnfold(m2, CYCLE_LIMIT);
    RunUnfold(m1, CYCLE_LIMIT);
    RunUnfold(m0, CYCLE_LIMIT);
  }
}
