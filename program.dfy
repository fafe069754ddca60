/** The newer program loader (src/program/mod.rs): a single scan that
    resolves every bracket pair to instruction indices and rejects unbalanced
    brackets. */
module Programs {
  import opened Wrappers
  import opened Instructions
  import opened Brackets

  /** The program errors (src/program/error.rs), with the two bracket errors
      that `parse` reports: the instruction count at a `]` that closes
      nothing, and the number of `[` never closed. */
  datatype ParseError = Io | Invalid | MissingOpenBracket(count: nat) | MissingCloseBracket(open: nat)

  /** A program is its abstract syntax list. */
  datatype Program = Program(asl: seq<Instruction>)

  /** What `parse` returns for a source text. */
  function Parsed(source: string): (r: Result<Program, ParseError>)
    ensures r.Ok? ==> |r.value.asl| <= |source|
    ensures r.Err? ==> r.error.MissingOpenBracket? || (r.error.MissingCloseBracket? && r.error.open > 0)
    ensures r.Err? && r.error.MissingOpenBracket? ==> r.error.count < |source|
  {
    match Consume(source, [], [])
    case StrayClose(n) => Err(MissingOpenBracket(n))
    case Scanned(asl, stack) =>
      if stack == [] then Ok(Program(asl)) else Err(MissingCloseBracket(|stack|))
  }

  /** `Program::parse`: one left-to-right pass over the characters, pushing
      instructions onto `asl` and open-bracket indices onto `stack`, and
      patching a placeholder in place when its `]` arrives. */
  method Parse(source: string) returns (r: Result<Program, ParseError>)
    ensures r == Parsed(source)
    ensures r.Ok? ==> RenderAll(r.value.asl) == Filter(source) && Paired(r.value.asl) && Nested(r.value.asl)
  {
    var asl: seq<Instruction> := [];
    var count := 0;
    var stack: seq<nat> := [];
    for i := 0 to |source|
      invariant count == |asl|
      invariant StackBelow(asl, stack)
      invariant Consume(source[i..], asl, stack) == Consume(source, [], [])
    {
      ConsumeAt(source, i, asl, stack);
      var instruction: Instruction;
      match source[i] {
        case '>' => instruction := IncPtr;
        case '<' => instruction := DecPtr;
        case '+' => instruction := IncVal;
        case '-' => instruction := DecVal;
        case '.' => instruction := Output;
        case ',' => instruction := Input;
        case '[' =>
          stack := stack + [count];
          // A placeholder, resolved when the matching `]` is reached.
          instruction := SkipForward(0);
        case ']' =>
          if stack == [] {
            return Err(MissingOpenBracket(count));
          }
          var openPc := stack[|stack| - 1];
          stack := stack[..|stack| - 1];
          asl := asl[openPc := SkipForward(count)];
          instruction := SkipBackward(openPc);
        case _ =>
          continue;
      }
      count := count + 1;
      asl := asl + [instruction];
    }
    if stack != [] {
      return Err(MissingCloseBracket(|stack|));
    }
    r := Ok(Program(asl));
    ParsedStructure(source);
  }

  /** `get`: the instruction at a program counter, if there is one. */
  function Get(p: Program, iptr: nat): (r: Option<Instruction>)
    ensures r.Some? <==> iptr < |p.asl|
    ensures r.Some? ==> r.value == p.asl[iptr]
  {
    if iptr < |p.asl| then Some(p.asl[iptr]) else None
  }

  /** `Display`: the instructions' symbols concatenated in order. */
  method Display(p: Program) returns (s: string)
    ensures |s| == |p.asl|
    ensures forall k :: 0 <= k < |s| ==> s[k] == Render(p.asl[k])
    ensures s == RenderAll(p.asl)
  {
    s := "";
    for k := 0 to |p.asl|
      invariant s == RenderAll(p.asl[..k])
    {
      assert p.asl[..k + 1] == p.asl[..k] + [p.asl[k]];
      RenderAllSnoc(p.asl[..k], p.asl[k]);
      s := s + [Render(p.asl[k])];
    }
    assert p.asl[..|p.asl|] == p.asl;
  }

  /** A parse succeeds exactly when the symbols of the source are balanced. */
  lemma ParseAcceptsBalanced(source: string)
    ensures Parsed(source).Ok? <==> Balanced(Filter(source))
  {
    ConsumeSource(source);
    if Consume(source, [], []).StrayClose? {
      StrayCloseExcludesNoStray(Filter(source), Consume(source, [], []).at);
    }
  }

  /** A successful parse has one instruction per symbol of the source, in
      order, each rendering to its symbol; every `[` and `]` is paired with
      its partner by index, and the pairs nest. */
  lemma ParsedStructure(source: string)
    ensures Parsed(source).Ok? ==>
      var asl := Parsed(source).value.asl;
      RenderAll(asl) == Filter(source) && Paired(asl) && Nested(asl)
  {
    ConsumeSource(source);
    if Parsed(source).Ok? {
      ResolvedComplete(Parsed(source).value.asl);
    }
  }

  /** The parse fails with `MissingOpenBracket(n)` exactly when the `n`-th
      symbol is the first `]` that closes nothing; `n` counts the
      instructions emitted before it. */
  lemma ParseRejectsStrayClose(source: string, n: nat)
    ensures Parsed(source) == Err(MissingOpenBracket(n)) <==> StrayCloseAt(Filter(source), 0, n)
  {
    ConsumeSource(source);
    match Consume(source, [], [])
    case StrayClose(m) =>
      if StrayCloseAt(Filter(source), 0, n) {
        StrayCloseUnique(Filter(source), m, n);
      }
    case Scanned(_, _) =>
      if StrayCloseAt(Filter(source), 0, n) {
        StrayCloseExcludesNoStray(Filter(source), n);
      }
  }

  /** The parse fails with `MissingCloseBracket(n)` exactly when no `]` is
      stray and `n > 0` brackets stay open at the end. */
  lemma ParseRejectsUnclosed(source: string, n: nat)
    ensures Parsed(source) == Err(MissingCloseBracket(n)) <==>
      NoStrayClose(Filter(source), 0) && Depth(Filter(source)) == n && n > 0
  {
    ConsumeSource(source);
    if Consume(source, [], []).StrayClose? {
      StrayCloseExcludesNoStray(Filter(source), Consume(source, [], []).at);
    }
  }

  /** Rendering a parsed program gives the source's symbols, and parsing
      that rendering gives the same program back. */
  lemma DisplayRoundTrip(source: string, p: Program)
    requires Parsed(source) == Ok(p)
    ensures RenderAll(p.asl) == Filter(source)
    ensures Parsed(RenderAll(p.asl)) == Ok(p)
  {
    ParsedStructure(source);
    ConsumeIgnoresComments(source, [], []);
    ConsumeIgnoresComments(Filter(source), [], []);
    FilterIdempotent(source);
  }

  /** The crate's own bracket tests. */
  lemma BracketExamples()
    ensures Parsed("[[]]") == Ok(Program([SkipForward(3), SkipForward(2), SkipBackward(1), SkipBackward(0)]))
    ensures Parsed("[[[]]") == Err(MissingCloseBracket(1))
    ensures Parsed("[[]]]") == Err(MissingOpenBracket(4))
  {
    NestedPairExample();
    UnclosedExample();
    StrayCloseExample();
  }

  /** `[[]]`: each `[` points at its `]`, which points back. */
  lemma NestedPairExample()
    ensures Parsed("[[]]") == Ok(Program([SkipForward(3), SkipForward(2), SkipBackward(1), SkipBackward(0)]))
  {
    assert Consume("[[]]", [], []) == Scanned([SkipForward(3), SkipForward(2), SkipBackward(1), SkipBackward(0)], []);
  }

  /** `[[[]]`: one `[` stays open. */
  lemma UnclosedExample()
    ensures Parsed("[[[]]") == Err(MissingCloseBracket(1))
  {
    assert Consume("[[[]]", [], []) ==
      Scanned([SkipForward(0), SkipForward(4), SkipForward(3), SkipBackward(2), SkipBackward(1)], [0]);
  }

  /** `[[]]]`: the last `]` closes nothing, after four instructions. */
  lemma StrayCloseExample()
    ensures Parsed("[[]]]") == Err(MissingOpenBracket(4))
  {
    assert Consume("[[]]]", [], []) == StrayClose(4);
  }
}
