/** The eight-instruction set and its one-character rendering (src/instruction.rs). */
module Instructions {

  /** An executable instruction. The two jumps carry the resolved index of
      their partner in the instruction list, not a character offset. */
  datatype Instruction =
    | IncPtr
    | DecPtr
    | IncVal
    | DecVal
    | Output
    | Input
    | SkipForward(target: nat)
    | SkipBackward(target: nat)

  /** The eight characters of the language; everything else is a comment. */
  predicate IsSymbol(c: char) {
    c == '>' || c == '<' || c == '+' || c == '-' || c == '.' || c == ',' || c == '[' || c == ']'
  }

  /** The `Display` rendering: every instruction is exactly one symbol, each
      constructor its own, and a jump's target does not show. */
  function Render(i: Instruction): (c: char)
    ensures IsSymbol(c)
    ensures c == '>' <==> i == IncPtr
    ensures c == '<' <==> i == DecPtr
    ensures c == '+' <==> i == IncVal
    ensures c == '-' <==> i == DecVal
    ensures c == '.' <==> i == Output
    ensures c == ',' <==> i == Input
    ensures c == '[' <==> i.SkipForward?
    ensures c == ']' <==> i.SkipBackward?
  {
    match i
    case IncPtr => '>'
    case DecPtr => '<'
    case IncVal => '+'
    case DecVal => '-'
    case Output => '.'
    case Input => ','
    case SkipForward(_) => '['
    case SkipBackward(_) => ']'
  }

  /** The rendering of a whole instruction list, one character per instruction. */
  function RenderAll(asl: seq<Instruction>): string {
    seq(|asl|, k requires 0 <= k < |asl| => Render(asl[k]))
  }

  /** Two instructions render alike exactly when they have the same
      constructor; so only the jump targets are lost in rendering. */
  lemma RenderDistinguishesKinds(i: Instruction, j: Instruction)
    ensures Render(i) == Render(j) <==>
      (i.SkipForward? && j.SkipForward?) || (i.SkipBackward? && j.SkipBackward?) || i == j
  {
  }
}
