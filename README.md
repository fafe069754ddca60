# brainfuck, modelled in Dafny

A model of the core of the `brainfuck` Rust crate: the eight-instruction
set and its rendering, the two revisions of the program parser that resolve
`[`/`]` pairs to instruction indices, the family of tapes with their
different overflow policies, and the fetch/execute interpreter with its
cycle-limit safety valve.

Layout, one Dafny module per source file:

- `instruction.dfy` (`Instructions`): the `Instruction` datatype and its one-character rendering.
- `brackets.dfy` (`Brackets`): the single left-to-right scan shared by both parsers.
  `Feed` is one loop iteration, `Consume` is the whole loop, and `Resolved` is the loop
  invariant (placeholders on the stack, partners pointing at each other, nesting).
  `Filter`, `Depth`, `NoStrayClose`, `StrayCloseAt` and `Balanced` describe the
  source text independently of the scan.
- `program.dfy` (`Programs`): the newer `Program::parse`, which reports unbalanced brackets.
  It also holds `get` and `Display`.
- `legacy_program.dfy` (`LegacyPrograms`): the older `Program::parse`, which panics on a
  stray `]` and leaves unclosed `[` as `SkipForward(0)` placeholders.
- `tapes.dfy` (`Tapes`): `TAPE_LENGTH`, the tape errors, and the checked and wrapping byte
  steps the tapes share.
- One class per tape, each with `Default`, `Get` (deref), `Set` (deref_mut), `IncVal`,
  `DecVal`, `IncPtr` and `DecPtr`, plus a method that replays the crate's tests for it:
  - `array_tape.dfy`
  - `vec_tape.dfy`
  - `mod256_array_tape.dfy`
  - `mod_array_tape.dfy`
  - `garbled_tape.dfy`
- `legacy_tape.dfy` (`LegacyTapes`): the old operator tape that the interpreter uses. Pure
  functions on `TapeState` specify `+=`, `-=`, `>>=` and `<<=`, with `None` standing for a
  panic. The class `Tape` is proved to follow them.
- `error.dfy` (`Errors`): the interpreter's error type.
- `machine.dfy` (`Machines`): the interpreter's semantics as pure functions. `Execute` is
  one instruction, `Step` one fetch/execute, and `Run` the loop. `Run` returns the outcome,
  the final state and the instructions handed to the callback hook.
- `interpreter.dfy` (`Interpreters`): the `Interpreter` class. Its fields are updated in
  place, and every method is proved equal to the corresponding `Machines` function.

Bytes are `bv8` on the tapes of `src/tape/`, where wrap-around is the point of
several tapes. The old tape and the interpreter use an integer `Byte` newtype
(0..255). Pointers are `nat`, kept below the bound each tape promises.
`ModArrayTape` uses `nat` below 2^64 with explicit wrap-around, and
`GarbledTape` uses `bv64` so that the XOR encoding is exact.

Where the crate's stated design and its code differ, the model follows the code:

- The interpreter runs on the old tape of `src/tape.rs` (src/interpreter.rs:21).
  Its overflows panic; they are not `Err` values. A panic is the outcome `Panicked`/`Aborted`.
- `execute` advances `pc` by one after every instruction, jumps included.
  A taken jump therefore resumes at `target + 1`.
- The tape errors are named `ValOverflow`, `ValUnderflow`, `PtrOverflow` and
  `PtrUnderflow`. `ArrayTape` and `VecTape` report a single `Overflow`.
- `ModArrayTape` and `GarbledTape` do not keep the pointer inside the array. Reading or
  writing their current cell is therefore a precondition, because indexing out of range
  panics.
- The interpreter holds programs of the older parser (`src/program.rs`), whose `parse`
  returns a `Program` directly, as the interpreter's own tests use it.

## Model

| member | source | states |
|---|---|---|
| `Instructions.Render` | src/instruction.rs:54-67 | each instruction renders to one of the eight symbols; each symbol belongs to exactly one constructor (both directions), and jumps render regardless of target |
| `Brackets.Filter` | src/program/mod.rs:28-51 | comment removal keeps only symbols and never lengthens the text |
| `Brackets.FilterSymbols` | src/program/mod.rs:28-51 | a text made only of symbols passes comment removal unchanged |
| `Brackets.FilterIdempotent` | src/program/mod.rs:28-51 | removing comments twice is the same as once |
| `Brackets.DepthAppend` | src/program/mod.rs:35-50 | the bracket depth of a concatenation is the sum of the depths |
| `Brackets.StrayCloseUnique` | src/program/mod.rs:42-46 | a text has at most one first stray `]` |
| `Brackets.StrayCloseExcludesNoStray` | src/program/mod.rs:42-46 | a text with a stray `]` is not free of stray `]` |
| `Brackets.Feed` | src/program/mod.rs:28-54 | one loop iteration keeps every stack entry below the output length, emits one instruction per symbol and none per comment, and changes the stack height by the bracket's depth |
| `Brackets.ResolvedComplete` | src/program/mod.rs:56-61 | once the stack is empty, the loop invariant gives full pairing and nesting |
| `Brackets.ResolvedSnoc` | src/program/mod.rs:29-34 | appending a non-jump instruction keeps the loop invariant |
| `Brackets.FeedPlain` | src/program/mod.rs:29-34 | a non-bracket symbol appends its instruction and keeps the invariant |
| `Brackets.FeedOpenPairs` | src/program/mod.rs:35-41 | after a `[`, every closed jump still points at its partner and the new placeholder sits on top of the stack |
| `Brackets.FeedOpenNests` | src/program/mod.rs:35-41 | after a `[`, closed pairs still nest and none encloses an open `[` |
| `Brackets.FeedOpen` | src/program/mod.rs:35-41 | `[` appends a placeholder `SkipForward(0)`, pushes its index and keeps the invariant |
| `Brackets.PopStack` | src/program/mod.rs:43-44 | popping a strictly increasing stack removes exactly its top entry |
| `Brackets.FeedCloseStack` | src/program/mod.rs:42-50 | after a `]`, the remaining stack is below the output, increasing, and names only placeholders |
| `Brackets.FeedCloseForward` | src/program/mod.rs:42-50 | after a `]`, every closed `[` (the newly patched one included) points forward at its `]`, which points back |
| `Brackets.FeedCloseBackward` | src/program/mod.rs:42-50 | after a `]`, every `SkipBackward` points back at a `SkipForward` that points at it |
| `Brackets.FeedCloseNested` | src/program/mod.rs:42-50 | after a `]`, closed pairs nest |
| `Brackets.FeedCloseOutside` | src/program/mod.rs:42-50 | after a `]`, no closed pair encloses a `[` still open |
| `Brackets.FeedClose` | src/program/mod.rs:42-50 | `]` patches the popped placeholder to point at the new `SkipBackward`, which points back, and keeps the invariant |
| `Brackets.Consume` | src/program/mod.rs:27-55 | the parse loop as a function: it emits at most one instruction per character, and a stop at a stray `]` reports a count below the text's length |
| `Brackets.ConsumeIgnoresComments` | src/program/mod.rs:51 | the scan of a text equals the scan of its symbols alone |
| `Brackets.ConsumeDepth` | src/program/mod.rs:27-55 | a finished scan saw no stray `]` and its stack height is the depth; a stopped scan stopped at the first stray `]` |
| `Brackets.ConsumeKeepsResolved` | src/program/mod.rs:27-55 | a finished scan of symbols keeps the loop invariant |
| `Brackets.FeedRenders` | src/program/mod.rs:28-50 | one symbol is emitted as an instruction rendering to it, and the stack still names only forward jumps |
| `Brackets.ConsumeRenders` | src/program/mod.rs:27-55 | a finished scan of symbols renders back to exactly those symbols, appended to what was already emitted |
| `Brackets.ConsumeResolves` | src/program/mod.rs:27-55 | a finished scan keeps the loop invariant and renders back to the symbols consumed |
| `Brackets.ConsumeAt` | src/program/mod.rs:27-55 | one character of the loop, in terms of the remaining text |
| `Brackets.ConsumeFiltered` | src/program/mod.rs:27-55 | the scan of a whole text equals the scan of its symbols, which are all symbols |
| `Brackets.ConsumeSourceDepth` | src/program/mod.rs:27-55 | a whole scan either saw no stray `]` and leaves as many `[` open as the depth, or stopped at the first stray `]` |
| `Brackets.ConsumeSourceResolves` | src/program/mod.rs:27-55 | a whole scan that finishes keeps the invariant and renders back to the source's symbols |
| `Brackets.ConsumeSource` | src/program/mod.rs:27-55 | a whole scan from the empty state either finishes with no stray `]`, as many open `[` as the depth, the invariant kept and the source's symbols rendered back, or stops at the first stray `]` |
| `Programs.Parsed` | src/program/mod.rs:23-62 | what `parse` returns: at most one instruction per character, and the only errors are `MissingOpenBracket` with a count below the length and `MissingCloseBracket` with a positive count (never `Io` or `Invalid`) |
| `Programs.Parse` | src/program/mod.rs:23-62 | the loop returns exactly `Parsed(source)`; on success the program renders to the source's symbols and is paired and nested |
| `Programs.ParseAcceptsBalanced` | src/program/mod.rs:23-62 | parsing succeeds if and only if the source's brackets are balanced |
| `Programs.ParsedStructure` | src/program/mod.rs:28-50 | a parsed program has one instruction per symbol in order; every `SkipForward(t)` at `i` has `t > i` and `asl[t] == SkipBackward(i)`, and conversely; the pairs nest |
| `Programs.ParseRejectsStrayClose` | src/program/mod.rs:42-46 | `MissingOpenBracket(n)` if and only if the first stray `]` comes after `n` instructions |
| `Programs.ParseRejectsUnclosed` | src/program/mod.rs:56-58 | `MissingCloseBracket(n)` if and only if no `]` is stray and `n > 0` brackets stay open |
| `Programs.Get` | src/program/mod.rs:65-67 | `Some(asl[i])` exactly when `i` is in range, `None` otherwise |
| `Programs.Display` | src/program/mod.rs:78-86 | one character per instruction, each its rendering |
| `Programs.DisplayRoundTrip` | src/program/mod.rs:78-86 | rendering a parsed program gives the source's symbols, and parsing that gives the same program |
| `Programs.BracketExamples` | src/program/mod.rs:101-117 | `[[]]` parses to mutually pointing jumps; `[[[]]` and `[[]]]` are rejected with their errors |
| `Programs.NestedPairExample` | src/program/mod.rs:101-105 | `[[]]` parses to `[→3, [→2, ]→1, ]→0` |
| `Programs.UnclosedExample` | src/program/mod.rs:107-111 | `[[[]]` is rejected with one bracket left open |
| `Programs.StrayCloseExample` | src/program/mod.rs:113-117 | `[[]]]` is rejected at its stray `]`, after four instructions |
| `LegacyPrograms.Parsed` | src/program.rs:21-50 | what `parse` produces, `None` being the panic; at most one instruction per character |
| `LegacyPrograms.Parse` | src/program.rs:21-50 | the loop returns exactly `Parsed(source)`, `None` being the panic; the result renders to the source's symbols |
| `LegacyPrograms.ParsePanicsOnStrayClose` | src/program.rs:39 | the parse panics if and only if some `]` closes nothing |
| `LegacyPrograms.ParsedShape` | src/program.rs:33-49 | one instruction per symbol; as many unclosed `[` as the depth, each left as the placeholder `SkipForward(0)`; all other brackets paired |
| `LegacyPrograms.ParsedBalanced` | src/program.rs:33-43 | on balanced sources the program is paired and nested |
| `LegacyPrograms.AgreesWithNewParser` | src/program.rs:21-50 | the old parse panics exactly where the new one reports `MissingOpenBracket`, and builds the same program wherever the new one succeeds |
| `LegacyPrograms.LegacyExamples` | src/program.rs:33-43 | `+]` panics; `[+` keeps its placeholder `SkipForward(0)` |
| `LegacyPrograms.Get` | src/program.rs:53-55 | `Some(asl[i])` exactly when `i` is in range |
| `LegacyPrograms.Display` | src/program.rs:66-74 | one character per instruction, each its rendering |
| `Tapes.CheckedInc` | src/tape/array_tape.rs:25-33 | `checked_add(1)` on a byte: defined exactly below 255, and then one more |
| `Tapes.CheckedDec` | src/tape/array_tape.rs:35-43 | `checked_sub(1)` on a byte: defined exactly above 0, and then one less |
| `Tapes.WrappingInc` | src/tape/mod256_array_tape.rs:31-35 | `wrapping_add(1)`: the checked increment wherever that is defined, and 0 where it overflows (at 255) |
| `Tapes.WrappingDec` | src/tape/mod256_array_tape.rs:37-41 | `wrapping_sub(1)`: the checked decrement wherever that is defined, and 255 where it underflows (at 0) |
| `ArrayTapes.ArrayTape.Default` | src/tape/array_tape.rs:13-20 | all `TAPE_LENGTH` cells 0, pointer 0 |
| `ArrayTapes.ArrayTape.Get` | src/tape/array_tape.rs:66-72 | `deref` reads the current cell |
| `ArrayTapes.ArrayTape.Set` | src/tape/array_tape.rs:66-78 | writes exactly the current cell |
| `ArrayTapes.ArrayTape.IncVal` | src/tape/array_tape.rs:25-33 | `Overflow` exactly at 255 with nothing changed, else stores and returns cell + 1; other cells untouched |
| `ArrayTapes.ArrayTape.DecVal` | src/tape/array_tape.rs:35-43 | `Overflow` exactly at 0 with nothing changed, else stores and returns cell - 1; other cells untouched |
| `ArrayTapes.ArrayTape.IncPtr` | src/tape/array_tape.rs:45-53 | `Overflow` exactly when ptr + 1 reaches `TAPE_LENGTH`, else sets and returns ptr + 1; cells untouched; pointer stays in range |
| `ArrayTapes.ArrayTape.DecPtr` | src/tape/array_tape.rs:55-63 | `Overflow` exactly at 0, else sets and returns ptr - 1; cells untouched |
| `ArrayTapes.ArrayTapeTests` | src/tape/array_tape.rs:90-118 | the value tests' readings: 0 on a fresh tape, 20 after a write, 21 and 19 after incrementing and decrementing 20 |
| `ArrayTapes.ArrayTapePointerTests` | src/tape/array_tape.rs:120-135 | after writing 20, the next cell reads 0 and moving back reads 20 again |
| `VecTapes.VecTape.Default` | src/tape/vec_tape.rs:13-23 | exactly one cell, 0, pointer 0 |
| `VecTapes.VecTape.Get` | src/tape/vec_tape.rs:73-79 | `deref` reads the current cell |
| `VecTapes.VecTape.Set` | src/tape/vec_tape.rs:73-85 | writes exactly the current cell |
| `VecTapes.VecTape.IncVal` | src/tape/vec_tape.rs:28-36 | `Overflow` exactly at 255 with nothing changed, else only the current cell becomes cell + 1 |
| `VecTapes.VecTape.DecVal` | src/tape/vec_tape.rs:38-46 | `Overflow` exactly at 0 with nothing changed, else only the current cell becomes cell - 1 |
| `VecTapes.VecTape.IncPtr` | src/tape/vec_tape.rs:48-60 | `Overflow` exactly at index `TAPE_LENGTH - 1` with nothing changed; a first visit appends exactly one zero cell, a revisit keeps the cells; keeps ptr < cells.len() <= `TAPE_LENGTH` |
| `VecTapes.VecTape.DecPtr` | src/tape/vec_tape.rs:62-70 | `Overflow` exactly at 0; never shrinks or changes the cells |
| `VecTapes.VecTapeTests` | src/tape/vec_tape.rs:97-125 | the value tests' readings: 0, 20, 21 and 19 |
| `VecTapes.VecTapePointerTests` | src/tape/vec_tape.rs:127-142 | after writing 20, the next cell reads 0 and moving back reads 20; the first move right grows the tape to two cells |
| `Mod256ArrayTapes.Mod256ArrayTape.Default` | src/tape/mod256_array_tape.rs:15-22 | all cells 0, pointer 0 |
| `Mod256ArrayTapes.Mod256ArrayTape.Get` | src/tape/mod256_array_tape.rs:64-70 | `deref` reads the current cell |
| `Mod256ArrayTapes.Mod256ArrayTape.Set` | src/tape/mod256_array_tape.rs:64-76 | writes exactly the current cell |
| `Mod256ArrayTapes.Mod256ArrayTape.IncVal` | src/tape/mod256_array_tape.rs:31-35 | never fails; current cell becomes cell + 1 modulo 256 |
| `Mod256ArrayTapes.Mod256ArrayTape.DecVal` | src/tape/mod256_array_tape.rs:37-41 | never fails; current cell becomes cell - 1 modulo 256 |
| `Mod256ArrayTapes.Mod256ArrayTape.IncPtr` | src/tape/mod256_array_tape.rs:43-51 | `PtrOverflow` exactly at the last cell with nothing changed, else ptr + 1; pointer stays in range |
| `Mod256ArrayTapes.Mod256ArrayTape.DecPtr` | src/tape/mod256_array_tape.rs:53-61 | `PtrUnderflow` exactly at 0 with nothing changed, else ptr - 1 |
| `Mod256ArrayTapes.Mod256ArrayTapeTests` | src/tape/mod.rs:58-86 | the shared value tests' readings on this tape: 0, 20, 21 and 19 |
| `Mod256ArrayTapes.Mod256ArrayTapePointerTests` | src/tape/mod.rs:88-103 | the shared pointer tests on this tape: the next cell reads 0 and moving back reads 20 |
| `Mod256ArrayTapes.Mod256ArrayTapeWraps` | src/tape/mod256_array_tape.rs:31-41 | 255 goes up to 0, and 0 goes down to 255 |
| `ModArrayTapes.WrapInc` | src/tape/mod_array_tape.rs:43-47 | `usize` `wrapping_add(1)`: ptr + 1, except that the largest `usize` goes to 0 |
| `ModArrayTapes.WrapDec` | src/tape/mod_array_tape.rs:49-53 | `usize` `wrapping_sub(1)`: ptr - 1, except that 0 goes to the largest `usize` |
| `ModArrayTapes.WrapIncDec` | src/tape/mod_array_tape.rs:43-53 | the two pointer moves undo each other |
| `ModArrayTapes.ModArrayTape.Default` | src/tape/mod_array_tape.rs:15-22 | all cells 0, pointer 0 |
| `ModArrayTapes.ModArrayTape.Get` | src/tape/mod_array_tape.rs:56-62 | `deref` reads the current cell (which must lie inside the array) |
| `ModArrayTapes.ModArrayTape.Set` | src/tape/mod_array_tape.rs:56-68 | writes exactly the current cell, which must lie inside the array |
| `ModArrayTapes.ModArrayTape.IncVal` | src/tape/mod_array_tape.rs:31-35 | never fails; current cell + 1 modulo 256, other cells untouched |
| `ModArrayTapes.ModArrayTape.DecVal` | src/tape/mod_array_tape.rs:37-41 | never fails; current cell - 1 modulo 256, other cells untouched |
| `ModArrayTapes.ModArrayTape.IncPtr` | src/tape/mod_array_tape.rs:43-47 | never fails; the pointer wraps within `usize`; cells untouched |
| `ModArrayTapes.ModArrayTape.DecPtr` | src/tape/mod_array_tape.rs:49-53 | never fails; the pointer wraps within `usize`; cells untouched |
| `ModArrayTapes.ModArrayTapeTests` | src/tape/mod.rs:58-86 | the shared value tests' readings on this tape: 0, 20, 21 and 19 |
| `ModArrayTapes.ModArrayTapePointerTests` | src/tape/mod.rs:88-103 | the shared pointer tests on this tape (0, then 20), and that moving left from cell 0 leaves the pointer at `usize::MAX`, outside the array |
| `GarbledTapes.GarbledTape.Default` | src/tape/garbled_tape.rs:13-25 | key 37, every stored cell 37 and stored pointer 37, so every cell decodes to 0 and the pointer to 0 |
| `GarbledTapes.GarbledTape.Get` | src/tape/garbled_tape.rs:78-84 | `deref` reads the current cell as stored, without decoding |
| `GarbledTapes.GarbledTape.Set` | src/tape/garbled_tape.rs:78-90 | writes exactly the stored current cell |
| `GarbledTapes.GarbledTape.IncVal` | src/tape/garbled_tape.rs:35-43 | `ValOverflow` exactly when the decoded cell is 255, else the decoded cell goes up by one and is returned decoded |
| `GarbledTapes.GarbledTape.DecVal` | src/tape/garbled_tape.rs:45-53 | `ValUnderflow` exactly when the decoded cell is 0, else the decoded cell goes down by one |
| `GarbledTapes.GarbledTape.IncPtr` | src/tape/garbled_tape.rs:55-64 | `PtrOverflow` only at the largest decoded `usize`, else the decoded pointer goes up by one and the stored pointer is returned |
| `GarbledTapes.GarbledTape.DecPtr` | src/tape/garbled_tape.rs:66-75 | `PtrUnderflow` exactly at decoded 0, else the decoded pointer goes down by one |
| `GarbledTapes.GarbledTapeTests` | src/tape/garbled_tape.rs:102-129 | a fresh tape reads 37 as stored, a write reads back 42; stored 42 becomes 53 going up and 43 going down |
| `GarbledTapes.GarbledTapePointerTests` | src/tape/garbled_tape.rs:131-146 | moving right stores pointer 36 and reads 37; moving back reads 42 |
| `LegacyTapes.Blank` | src/tape.rs:15-22 | 30000 zero cells, pointer 0 |
| `LegacyTapes.Store` | src/tape.rs:32-36 | deref_mut changes exactly the current cell |
| `LegacyTapes.Add` | src/tape.rs:38-45 | `+= n`: panics exactly when cell + n exceeds 255, else only the current cell becomes cell + n |
| `LegacyTapes.Sub` | src/tape.rs:47-54 | `-= n`: panics exactly when n exceeds the cell, else only the current cell becomes cell - n |
| `LegacyTapes.ShiftRight` | src/tape.rs:56-63 | `>>= n`: panics exactly when ptr + n reaches 30000, else moves the pointer; cells untouched; pointer stays in range |
| `LegacyTapes.ShiftLeft` | src/tape.rs:65-72 | `<<= n`: panics exactly when n exceeds ptr, else moves the pointer; cells untouched |
| `LegacyTapes.AddSubInverse` | src/tape.rs:38-54 | `-= n` undoes `+= n` and conversely |
| `LegacyTapes.ShiftInverse` | src/tape.rs:56-72 | `<<= n` undoes `>>= n` and conversely |
| `LegacyTapes.Tape.New` | src/tape.rs:15-22 | the blank tape |
| `LegacyTapes.Tape.Deref` | src/tape.rs:24-30 | reads exactly the current cell |
| `LegacyTapes.Tape.DerefMut` | src/tape.rs:32-36 | the tape becomes `Store` of the old tape |
| `LegacyTapes.Tape.AddAssign` | src/tape.rs:38-45 | panics exactly when `Add` does, else the tape becomes `Add` of the old tape |
| `LegacyTapes.Tape.SubAssign` | src/tape.rs:47-54 | panics exactly when `Sub` does, else the tape becomes `Sub` of the old tape |
| `LegacyTapes.Tape.ShrAssign` | src/tape.rs:56-63 | panics exactly when `ShiftRight` does, else the tape becomes `ShiftRight` of the old tape |
| `LegacyTapes.Tape.ShlAssign` | src/tape.rs:65-72 | panics exactly when `ShiftLeft` does, else the tape becomes `ShiftLeft` of the old tape |
| `LegacyTapes.LegacyTapeTests` | src/tape.rs:78-128 | the tests' readings: 0, 20, 6, 4, 0 after `>>=`, and 4 again after `<<=` |
| `Machines.Initial` | src/interpreter.rs:31-40 | no program, no reader or writer, blank tape, `pc` 0, `cycles` 0 |
| `Machines.Load` | src/interpreter.rs:43-47 | installs the program and resets `pc` to 0; tape, streams and `cycles` are kept |
| `Machines.Effect` | src/interpreter.rs:102-137 | the instruction match: only the four tape operators panic, exactly on their overflows; a taken jump sets `pc` to its target and nothing else moves `pc`; program and `cycles` are kept |
| `Machines.Execute` | src/interpreter.rs:101-140 | panics exactly on the four tape overflows; `>`/`<`/`+`/`-` leave the tape as `>>= 1`/`<<= 1`/`+= 1`/`-= 1` do; `.` appends the current cell to the writer, or does nothing without one; `,` stores and consumes the next byte, or changes nothing when the reader is missing or empty; `pc` becomes target + 1 for a taken jump and `pc + 1` otherwise; every other part of the state is kept |
| `Machines.Step` | src/interpreter.rs:81-99 | `CycleLimit` exactly when the limit is reached, before anything else; `NoProgram` exactly without a program; `Done` exactly past the end; otherwise `Stepped` exactly when the fetched instruction executes, and `Panicked` exactly when it panics; no other error arises; a successful step executes the fetched instruction and adds exactly 1 to `cycles`; any other outcome changes nothing |
| `Machines.Run` | src/interpreter.rs:70-79 | the loop keeps the program and ends in a state whose next step would not succeed: `Ok` exactly when that step is past the end, an error exactly when it fails with that same error, and a panic exactly when it panics |
| `Machines.RunBounded` | src/interpreter.rs:60-79 | every run ends, with one hook call per successful step and `cycles` never past the limit; `CycleLimit` exactly when the limit is used up |
| `Machines.RunCallsFetched` | src/interpreter.rs:70-79 | the hook receives instructions of the program, the first one at the starting `pc` |
| `Machines.RunUnfold` | src/interpreter.rs:72-74 | a successful step hands its instruction to the hook and the run continues |
| `Machines.RunStops` | src/interpreter.rs:72-78 | any other step ends the run where it stands, without a hook call: past the end as `Ok`, an error step as that error, a panic as a panic |
| `Machines.SpinsUntilLimit` | src/interpreter.rs:82-84 | inside `+[]`, each step repeats `]` until the limit stops the run |
| `Machines.InfiniteLoopHitsCycleLimit` | src/interpreter.rs:82-84 | `+[]` stops with `CycleLimit` after exactly as many steps as the limit, for every limit |
| `Machines.InputExample` | src/interpreter.rs:115-126 | `,` with bytes 7, 9 waiting stores 7 and leaves 9 to read; `.` then writes 7 |
| `Machines.SpinParses` | src/program.rs:21-50 | `+[]` parses to `[+, [→2, ]→1]` |
| `Machines.BumpParses` | src/interpreter.rs:166-170 | `++>+.` parses to its five instructions |
| `Machines.EchoParses` | src/interpreter.rs:218 | `+,.` parses to its three instructions |
| `Machines.RunExample` | src/interpreter.rs:172-182 | `++>+.` finishes, handing all five instructions to the hook |
| `Machines.EmptyIoExample` | src/interpreter.rs:214-227 | `+,.` with an empty reader finishes having written `[1]` |
| `Interpreters.Interpreter.New` | src/interpreter.rs:31-40 | the state is `Initial()` |
| `Interpreters.Interpreter.Load` | src/interpreter.rs:43-47 | the state becomes `Load` of the old state |
| `Interpreters.Interpreter.Reader` | src/interpreter.rs:49-52 | attaches the reader, nothing else changes |
| `Interpreters.Interpreter.Writer` | src/interpreter.rs:54-57 | attaches the writer, nothing else changes |
| `Interpreters.Interpreter.Execute` | src/interpreter.rs:101-140 | panics exactly when `Execute` does; otherwise the state becomes `Execute` of the old state |
| `Interpreters.Interpreter.Step` | src/interpreter.rs:81-99 | outcome and new state are `Step` of the old state |
| `Interpreters.Interpreter.Run` | src/interpreter.rs:60-67 | outcome and final state are those of `Run` on the old state |
| `Interpreters.Interpreter.RunWithCallback` | src/interpreter.rs:70-79 | outcome, final state and hook calls are `Run` of the old state |
| `Interpreters.RunTests` | src/interpreter.rs:164-182 | `++>+.` runs to `Ok`, with and without the hook, and the hook is called 5 times |
| `Interpreters.StepTest` | src/interpreter.rs:186-196 | the first step of `++>+.` succeeds with `+` |
| `Interpreters.ExecuteTest` | src/interpreter.rs:198-204 | `+` executes on a fresh interpreter |
| `Interpreters.SingleStepTest` | src/interpreter.rs:206-212 | the one step of `>` succeeds |
| `Interpreters.EmptyIoTest` | src/interpreter.rs:214-227 | `+,.` with an empty reader writes `[1]` |

## Left out

- `Program::from_file` in both parsers (src/program/mod.rs:70-75, src/program.rs:58-63): file I/O.
  Only `parse` is modelled.
- `eval`, `eval_string` and `eval_file` in src/lib.rs: they only wire standard input and output into
  an interpreter. Only `CYCLE_LIMIT` is kept, as `Machines.CYCLE_LIMIT`. The pure semantics also
  take the limit as a parameter.
- The command-line programs src/main.rs and src/bin/main.rs, and the fixture-based tests
  tests/lib.rs and tests/smoke.rs.
- Reader and writer failures: the streams are infallible sequences. `Error::Io` therefore never
  arises. The input is the bytes not yet read; the output is the bytes written so far.
- The callback hook receives `&mut Interpreter` and may change it. The model records the
  instructions it receives and gives it no access to the interpreter.
- `Tape::trace` (printing) and `is_nice`, which is the constant `true`.
- `GarbledTape`'s security claims and its `does_not_leak_key` test. That test contradicts the
  default, where the current cell reads 37, equal to the key.
- The generic `Tape` trait is not a Dafny type. Each tape declares the trait's operations with the
  same names. The shared `tape_tests!` checks are replayed per tape
  (`Mod256ArrayTapeTests`, `ModArrayTapeTests`; `ArrayTapeTests` and `VecTapeTests` replay those
  files' own copies).
- `Program`'s error variants `Io` and `Invalid` are declared but never produced by `parse`.
- `LegacyPrograms.Parse`: the panic on a stray `]` is the result `None`, not a precondition. The
  model therefore also states when the panic happens.
- `ArrayTapes.ArrayTape.IncPtr`, `VecTapes.VecTape.IncPtr`, `Mod256ArrayTapes.Mod256ArrayTape.IncPtr`:
  `checked_add` on `usize` cannot overflow below `TAPE_LENGTH`, so only the `TAPE_LENGTH` bound is
  modelled.
- `Machines.Step`: `pc` and `cycles` are unbounded naturals, so `usize`/`u64` overflow is not
  modelled. `cycles` never passes the limit (`Machines.RunBounded`). `pc` is not bounded: `Load`
  accepts any instruction list, and a jump whose target lies past the end sends `pc` there. The next
  step then reports `Done`.
