/** The older program loader (src/program.rs): the same scan as the newer
    one, but a `]` that closes nothing panics, and brackets left open stay
    as `SkipForward(0)` placeholders in the program. */
module LegacyPrograms {
  import opened Wrappers
  import opened Instructions
  import opened Brackets
  import Programs

  /** A program is its abstract syntax list. */
  datatype Program = Program(asl: seq<Instruction>)

  /** What `parse` produces for a source text; `None` is the panic on a
      `]` whose stack is empty. */
  function Parsed(source: string): (r: Option<Program>)
    ensures r.Some? ==> |r.value.asl| <= |source|
  {
    match Consume(source, [], [])
    case StrayClose(_) => None
    case Scanned(asl, _) => Some(Program(asl))
  }

  /** The indices of the `[` that a panic-free parse leaves unclosed. */
  ghost function Unclosed(source: string): seq<nat>
    requires Parsed(source).Some?
  {
    Consume(source, [], []).stack
  }

  /** `Program::parse`: the newer loop without the final balance check; an
      empty stack at `]` is the panic, reported as `None`. */
  method Parse(source: string) returns (r: Option<Program>)
    ensures r == Parsed(source)
    ensures r.Some? ==> RenderAll(r.value.asl) == Filter(source)
  {
    var asl: seq<Instruction> := [];
    var count := 0;
    var stack: seq<nat> := [];
    for i := 0 to |source|
      invariant count == |asl|
      invariant StackBelow(asl, stack)
      invariant Consume(source[i..], asl, stack) == Consume(source, [], [])
    {
      ConsumeAt(source, i, asl, stack);
      var instruction: Instruction;
      match source[i] {
        case '>' => instruction := IncPtr;
        case '<' => instruction := DecPtr;
        case '+' => instruction := IncVal;
        case '-' => instruction := DecVal;
        case '.' => instruction := Output;
        case ',' => instruction := Input;
        case '[' =>
          stack := stack + [count];
          instruction := SkipForward(0);
        case ']' =>
          if stack == [] {
            // `expect("valid program")` panics here.
            return None;
          }
          var openInd := stack[|stack| - 1];
          stack := stack[..|stack| - 1];
          asl := asl[openInd := SkipForward(count)];
          instruction := SkipBackward(openInd);
        case _ =>
          continue;
      }
      count := count + 1;
      asl := asl + [instruction];
    }
    r := Some(Program(asl));
    ConsumeSource(source);
  }

  /** `get`: the instruction at a program counter, if there is one. */
  function Get(p: Program, iptr: nat): (r: Option<Instruction>)
    ensures r.Some? <==> iptr < |p.asl|
    ensures r.Some? ==> r.value == p.asl[iptr]
  {
    if iptr < |p.asl| then Some(p.asl[iptr]) else None
  }

  /** `Display`: the instructions' symbols concatenated in order. */
  method Display(p: Program) returns (s: string)
    ensures |s| == |p.asl|
    ensures forall k :: 0 <= k < |s| ==> s[k] == Render(p.asl[k])
  {
    s := "";
    for k := 0 to |p.asl|
      invariant s == RenderAll(p.asl[..k])
    {
      assert p.asl[..k + 1] == p.asl[..k] + [p.asl[k]];
      RenderAllSnoc(p.asl[..k], p.asl[k]);
      s := s + [Render(p.asl[k])];
    }
    assert p.asl[..|p.asl|] == p.asl;
  }

  /** The parse panics exactly when some `]` of the source closes nothing. */
  lemma ParsePanicsOnStrayClose(source: string)
    ensures Parsed(source).None? <==> !NoStrayClose(Filter(source), 0)
  {
    ConsumeSource(source);
    if Consume(source, [], []).StrayClose? {
      StrayCloseExcludesNoStray(Filter(source), Consume(source, [], []).at);
    }
  }

  /** Without a panic, the program has one instruction per symbol; the
      unclosed `[` are exactly as many as the source's depth, each still a
      `SkipForward(0)` placeholder; every other bracket points at its partner. */
  lemma ParsedShape(source: string)
    requires Parsed(source).Some?
    ensures RenderAll(Parsed(source).value.asl) == Filter(source)
    ensures |Unclosed(source)| == Depth(Filter(source))
    ensures Resolved(Parsed(source).value.asl, Unclosed(source))
  {
    ConsumeSource(source);
  }

  /** On balanced sources the program is fully paired and nested. */
  lemma ParsedBalanced(source: string)
    requires Balanced(Filter(source))
    ensures Parsed(source).Some?
    ensures Paired(Parsed(source).value.asl) && Nested(Parsed(source).value.asl)
  {
    ParsePanicsOnStrayClose(source);
    ParsedShape(source);
    ResolvedComplete(Parsed(source).value.asl);
  }

  /** The two revisions agree: the older one panics exactly where the newer
      one reports `MissingOpenBracket`, and wherever the newer one succeeds
      the older one builds the same instructions. */
  lemma AgreesWithNewParser(source: string)
    ensures Parsed(source).None? <==> Programs.Parsed(source).Err? && Programs.Parsed(source).error.MissingOpenBracket?
    ensures Programs.Parsed(source).Ok? ==> Parsed(source) == Some(Program(Programs.Parsed(source).value.asl))
  {
  }

  /** A panic, and a left-open bracket kept as a placeholder. */
  lemma LegacyExamples()
    ensures Parsed("+]") == None
    ensures Parsed("[+") == Some(Program([SkipForward(0), IncVal]))
  {
    assert Consume("+]", [], []) == Consume("]", [IncVal], []);
    assert Consume("[+", [], []) == Consume("+", [SkipForward(0)], [0]);
    assert Consume("+", [SkipForward(0)], [0]) == Consume("", [SkipForward(0), IncVal], [0]);
  }
}
