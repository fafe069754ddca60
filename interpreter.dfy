/** `Interpreter` (src/interpreter.rs): the fetch/execute loop over a
    program, a program counter, a cycle counter, the old tape and optional
    reader and writer, updated in place. Every method is proved to follow
    the pure semantics of module `Machines`. */
module Interpreters {
  import opened Wrappers
  import opened Instructions
  import opened LegacyTapes
  import opened Errors
  import opened Machines
  import LegacyPrograms
  import Brackets

  class Interpreter {
    var program: Option<LegacyPrograms.Program>
    var reader: Option<seq<Byte>>
    var writer: Option<seq<Byte>>
    const tape: Tape
    var pc: nat
    var cycles: nat

    /** The tape is well formed and the cycle counter never passes the limit. */
    ghost predicate Valid()
      reads this, tape
    {
      tape.Valid() && cycles <= CYCLE_LIMIT
    }

    /** The interpreter as a value. */
    ghost function State(): Machine
      reads this, tape, tape.cells
    {
      Machine(program, reader, writer, tape.View(), pc, cycles)
    }

    /** `new`. */
    constructor New()
      ensures Valid() && fresh(tape) && fresh(tape.cells)
      ensures State() == Initial()
    {
      program := None;
      reader := None;
      writer := None;
      tape := new Tape.New();
      pc := 0;
      cycles := 0;
    }

    /** `load`. */
    method Load(p: LegacyPrograms.Program)
      requires Valid()
      modifies this
      ensures Valid() && State() == Machines.Load(old(State()), p)
    {
      pc := 0;
      program := Some(p);
    }

    /** `reader`: attach the input still to be read. */
    method Reader(input: seq<Byte>)
      requires Valid()
      modifies this
      ensures Valid() && State() == old(State()).(reader := Some(input))
    {
      reader := Some(input);
    }

    /** `writer`: attach the output written so far. */
    method Writer(output: seq<Byte>)
      requires Valid()
      modifies this
      ensures Valid() && State() == old(State()).(writer := Some(output))
    {
      writer := Some(output);
    }

    /** `execute`; `panicked` is a panic of the tape, with nothing changed. */
    method Execute(instruction: Instruction) returns (panicked: bool)
      requires Valid()
      modifies this, tape, tape.cells
      ensures Valid() && Machines.Valid(old(State()))
      ensures panicked <==> Machines.Execute(old(State()), instruction).None?
      ensures State() == if panicked then old(State()) else Machines.Execute(old(State()), instruction).value
    {
      match instruction {
        case IncPtr =>
          panicked := tape.ShrAssign(1);
        case DecPtr =>
          panicked := tape.ShlAssign(1);
        case IncVal =>
          panicked := tape.AddAssign(1);
        case DecVal =>
          panicked := tape.SubAssign(1);
        case Output =>
          panicked := false;
          if writer.Some? {
            writer := Some(writer.value + [tape.Deref()]);
          }
        case Input =>
          panicked := false;
          if reader.Some? && reader.value != [] {
            tape.DerefMut(reader.value[0]);
            reader := Some(reader.value[1..]);
          }
        case SkipForward(iptr) =>
          panicked := false;
          if tape.Deref() == 0 {
            pc := iptr;
          }
        case SkipBackward(iptr) =>
          panicked := false;
          if tape.Deref() != 0 {
            pc := iptr;
          }
      }
      if !panicked {
        pc := pc + 1;
      }
    }

    /** `step`. */
    method Step() returns (s: StepResult)
      requires Valid()
      modifies this, tape, tape.cells
      ensures Valid() && Machines.Valid(old(State()))
      ensures (s, State()) == Machines.Step(old(State()), CYCLE_LIMIT)
    {
      if cycles >= CYCLE_LIMIT {
        return Failed(CycleLimit);
      }
      if program.None? {
        return Fatal(NoProgram);
      }
      var instruction: Instruction;
      match LegacyPrograms.Get(program.value, pc) {
        case None =>
          return Done;
        case Some(i) =>
          instruction := i;
      }
      var panicked := Execute(instruction);
      if panicked {
        return Panicked;
      }
      cycles := cycles + 1;
      s := Stepped(instruction);
    }

    /** `run`. */
    method Run() returns (r: RunResult)
      requires Valid()
      modifies this, tape, tape.cells
      ensures Valid() && Machines.Valid(old(State()))
      ensures r == Machines.Run(old(State()), CYCLE_LIMIT).0
      ensures State() == Machines.Run(old(State()), CYCLE_LIMIT).1
    {
      ghost var goal := Machines.Run(State(), CYCLE_LIMIT);
      while true
        invariant Valid()
        invariant Machines.Run(State(), CYCLE_LIMIT).0 == goal.0
        invariant Machines.Run(State(), CYCLE_LIMIT).1 == goal.1
        decreases CYCLE_LIMIT - cycles
      {
        ghost var before := State();
        var s := Step();
        if s.Stepped? {
          RunUnfold(before, CYCLE_LIMIT);
        } else {
          RunStops(before, CYCLE_LIMIT);
          return if s.Done? then Finished else if s.Panicked? then Aborted else Stopped(s.error);
        }
      }
    }

    /** `run_with_callback`: `calls` are the instructions the hook receives,
        in order. */
    method RunWithCallback() returns (r: RunResult, calls: seq<Instruction>)
      requires Valid()
      modifies this, tape, tape.cells
      ensures Valid() && Machines.Valid(old(State()))
      ensures (r, State(), calls) == Machines.Run(old(State()), CYCLE_LIMIT)
    {
      ghost var goal := Machines.Run(State(), CYCLE_LIMIT);
      calls := [];
      while true
        invariant Valid()
        invariant Machines.Run(State(), CYCLE_LIMIT).0 == goal.0
        invariant Machines.Run(State(), CYCLE_LIMIT).1 == goal.1
        invariant calls + Machines.Run(State(), CYCLE_LIMIT).2 == goal.2
        decreases CYCLE_LIMIT - cycles
      {
        ghost var before := State();
        var s := Step();
        if s.Stepped? {
          RunUnfold(before, CYCLE_LIMIT);
          calls := calls + [s.instruction];
        } else {
          RunStops(before, CYCLE_LIMIT);
          assert calls + [] == calls;
          r := if s.Done? then Finished else if s.Panicked? then Aborted else Stopped(s.error);
          return;
        }
      }
    }
  }

  /** The crate's `run` and `run_with_callback` tests: `++>+.` runs to
      completion, and the hook is called five times. */
  method RunTests() returns (run: RunResult, withCallback: RunResult, count: nat)
    ensures run == Finished && withCallback == Finished && count == 5
  {
    BumpParses();
    RunExample();
    var program := LegacyPrograms.Parse("++>+.");
    var interp := new Interpreter.New();
    interp.Load(program.value);
    run := interp.Run();

    interp := new Interpreter.New();
    interp.Load(program.value);
    var calls;
    withCallback, calls := interp.RunWithCallback();
    count := |calls|;
  }

  /** The crate's `step` test: the first step of `++>+.` succeeds with `+`. */
  method StepTest() returns (step: StepResult)
    ensures step == Stepped(IncVal)
  {
    BumpParses();
    var program := LegacyPrograms.Parse("++>+.");
    var interp := new Interpreter.New();
    interp.Load(program.value);
    assert Add(Blank(), 1).Some?;
    step := interp.Step();
  }

  /** The crate's `execute` test: `+` executes on a fresh interpreter
      without a panic. */
  method ExecuteTest() returns (panicked: bool)
    ensures !panicked
  {
    var interp := new Interpreter.New();
    assert Add(Blank(), 1).Some?;
    panicked := interp.Execute(IncVal);
  }

  /** The crate's `single_step` test: the one step of `>` succeeds. */
  method SingleStepTest() returns (step: StepResult)
    ensures step == Stepped(IncPtr)
  {
    assert Brackets.Consume(">", [], []) == Brackets.Consume("", [IncPtr], []);
    var program := LegacyPrograms.Parse(">");
    var interp := new Interpreter.New();
    interp.Load(program.value);
    assert ShiftRight(Blank(), 1).Some?;
    step := interp.Step();
  }

  /** The crate's `empty_io` test: `+,.` with an empty reader writes `[1]`. */
  method EmptyIoTest() returns (result: RunResult, written: Option<seq<Byte>>)
    ensures result == Finished && written == Some([1])
  {
    EchoParses();
    EmptyIoExample();
    var program := LegacyPrograms.Parse("+,.");
    var interp := new Interpreter.New();
    interp.Reader([]);
    interp.Writer([]);
    interp.Load(program.value);
    result := interp.Run();
    written := interp.writer;
  }
}
