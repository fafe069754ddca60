/** The single left-to-right scan that both revisions of `Program::parse`
    perform (src/program/mod.rs:27-55 and src/program.rs:25-48): comments are
    skipped, each symbol becomes one instruction, `[` pushes its index and a
    placeholder `SkipForward(0)`, `]` pops the stack and patches the
    placeholder. `Feed` is one iteration of that loop and `Consume` the whole
    loop; the revisions differ only in what they do with the outcome. */
module Brackets {
  import opened Instructions

  /** The symbols of a source text, in order, with every comment character dropped. */
  function Filter(s: string): (f: string)
    ensures |f| <= |s|
    ensures forall k :: 0 <= k < |f| ==> IsSymbol(f[k])
  {
    if s == [] then []
    else (if IsSymbol(s[0]) then [s[0]] else []) + Filter(s[1..])
  }

  predicate AllSymbols(s: string) {
    forall k :: 0 <= k < |s| ==> IsSymbol(s[k])
  }

  /** Filtering keeps a text that holds nothing but symbols as it is. */
  lemma {:induction false} FilterSymbols(s: string)
    requires AllSymbols(s)
    ensures Filter(s) == s
  {
    if s != [] {
      FilterSymbols(s[1..]);
    }
  }

  /** Comment removal is idempotent. */
  lemma FilterIdempotent(s: string)
    ensures Filter(Filter(s)) == Filter(s)
  {
    FilterSymbols(Filter(s));
  }

  /** How one character changes the bracket depth. */
  function Delta(c: char): int {
    if c == '[' then 1 else if c == ']' then -1 else 0
  }

  /** The number of `[` minus the number of `]` in a text. */
  function Depth(s: string): int {
    if s == [] then 0 else Delta(s[0]) + Depth(s[1..])
  }

  lemma {:induction false} DepthAppend(a: string, b: string)
    ensures Depth(a + b) == Depth(a) + Depth(b)
  {
    if a == [] {
      assert a + b == b;
    } else {
      assert (a + b)[0] == a[0];
      assert (a + b)[1..] == a[1..] + b;
      DepthAppend(a[1..], b);
    }
  }

  /** Starting from depth `d`, no prefix of `s` closes more brackets than are open. */
  ghost predicate NoStrayClose(s: string, d: int) {
    forall k :: 0 <= k <= |s| ==> d + Depth(s[..k]) >= 0
  }

  /** `s[n]` is the first `]` of `s` that finds no open bracket, starting from depth `d`. */
  ghost predicate StrayCloseAt(s: string, d: int, n: nat) {
    n < |s| && s[n] == ']' && d + Depth(s[..n]) == 0 && NoStrayClose(s[..n], d)
  }

  /** Every `]` closes an earlier `[`, and every `[` is closed. */
  ghost predicate Balanced(s: string) {
    NoStrayClose(s, 0) && Depth(s) == 0
  }

  lemma {:induction false} NoStrayCons(c: char, t: string, d: int)
    ensures NoStrayClose([c] + t, d) <==> d >= 0 && NoStrayClose(t, d + Delta(c))
  {
    var s := [c] + t;
    forall k | 0 <= k <= |t|
      ensures d + Depth(s[..k + 1]) == d + Delta(c) + Depth(t[..k])
    {
      assert s[..k + 1][1..] == t[..k];
    }
    if d >= 0 && NoStrayClose(t, d + Delta(c)) {
      forall k | 0 <= k <= |s|
        ensures d + Depth(s[..k]) >= 0
      {
        if k == 0 {
          assert s[..k] == [];
        } else {
          assert d + Depth(s[..k]) == d + Delta(c) + Depth(t[..k - 1]);
        }
      }
    }
    if NoStrayClose(s, d) {
      assert d + Depth(s[..0]) >= 0;
      assert s[..0] == [];
      forall k | 0 <= k <= |t|
        ensures d + Delta(c) + Depth(t[..k]) >= 0
      {
        assert d + Depth(s[..k + 1]) >= 0;
      }
    }
  }

  lemma {:induction false} StrayCloseCons(c: char, t: string, d: int, m: nat)
    requires d >= 0
    requires StrayCloseAt(t, d + Delta(c), m)
    ensures StrayCloseAt([c] + t, d, m + 1)
  {
    var s := [c] + t;
    assert s[..m + 1] == [c] + t[..m];
    assert s[..m + 1][1..] == t[..m];
    NoStrayCons(c, t[..m], d);
  }

  /** A text starting with `]` at depth zero has its stray `]` first. */
  lemma StrayCloseFirst(s: string)
    requires s != [] && s[0] == ']'
    ensures StrayCloseAt(s, 0, 0)
  {
    assert s[..0] == [];
    assert NoStrayClose(s[..0], 0) by {
      forall k | 0 <= k <= 0 ensures 0 + Depth(s[..0][..k]) >= 0 {
        assert s[..0][..k] == [];
      }
    }
  }

  /** A stray `]` at `n` makes the prefix ending there one below zero, so no
      text both has a stray `]` and has none. */
  lemma StrayCloseExcludesNoStray(s: string, n: nat)
    requires StrayCloseAt(s, 0, n)
    ensures !NoStrayClose(s, 0)
  {
    assert s[..n + 1] == s[..n] + [s[n]];
    DepthAppend(s[..n], [s[n]]);
    assert Depth([s[n]]) == -1;
  }

  /** The first stray `]` is unique. */
  lemma StrayCloseUnique(s: string, n: nat, m: nat)
    requires StrayCloseAt(s, 0, n) && StrayCloseAt(s, 0, m)
    ensures n == m
  {
    if n < m {
      assert s[..m][..n] == s[..n];
      StrayCloseExcludesNoStray(s[..m], n);
    } else if m < n {
      assert s[..n][..m] == s[..m];
      StrayCloseExcludesNoStray(s[..n], m);
    }
  }

  /** Every index on the bracket stack names an instruction already emitted. */
  predicate StackBelow(asl: seq<Instruction>, stack: seq<nat>) {
    forall j :: 0 <= j < |stack| ==> stack[j] < |asl|
  }

  /** One iteration of the parse loop on character `c`, from the instructions
      emitted so far and the stack of unmatched `[` indices. */
  function Feed(c: char, asl: seq<Instruction>, stack: seq<nat>): (r: (seq<Instruction>, seq<nat>))
    requires StackBelow(asl, stack)
    requires c == ']' ==> stack != []
    ensures StackBelow(r.0, r.1)
    ensures |r.0| == |asl| + (if IsSymbol(c) then 1 else 0)
    ensures |r.1| == |stack| + Delta(c)
  {
    match c
    case '>' => (asl + [IncPtr], stack)
    case '<' => (asl + [DecPtr], stack)
    case '+' => (asl + [IncVal], stack)
    case '-' => (asl + [DecVal], stack)
    case '.' => (asl + [Output], stack)
    case ',' => (asl + [Input], stack)
    case '[' => (asl + [SkipForward(0)], stack + [|asl|])
    case ']' =>
      var open := stack[|stack| - 1];
      (asl[open := SkipForward(|asl|)] + [SkipBackward(open)], stack[..|stack| - 1])
    case _ => (asl, stack)
  }

  /** Where the scan ends: every character consumed, or stopped at a `]`
      that found the stack empty, `at` being the number of instructions
      emitted before it. */
  datatype Scan = Scanned(asl: seq<Instruction>, stack: seq<nat>) | StrayClose(at: nat)

  /** The whole parse loop over `rest`, from a given state. */
  function Consume(rest: string, asl: seq<Instruction>, stack: seq<nat>): (r: Scan)
    requires StackBelow(asl, stack)
    ensures r.Scanned? ==> |r.asl| <= |asl| + |rest|
    ensures r.StrayClose? ==> r.at < |asl| + |rest|
    decreases |rest|
  {
    if rest == [] then Scanned(asl, stack)
    else if rest[0] == ']' && stack == [] then StrayClose(|asl|)
    else
      var (asl', stack') := Feed(rest[0], asl, stack);
      Consume(rest[1..], asl', stack')
  }

  /** The loop invariant of the scan. The stack holds, in increasing order,
      the indices of placeholders still waiting for their `]`; every other
      forward jump and every backward jump points at its partner; closed
      pairs nest, and no closed pair encloses a still-open `[`. */
  ghost predicate Resolved(asl: seq<Instruction>, stack: seq<nat>) {
    && StackBelow(asl, stack)
    && (forall j :: 0 <= j < |stack| ==> asl[stack[j]] == SkipForward(0))
    && (forall j, k :: 0 <= j < k < |stack| ==> stack[j] < stack[k])
    && (forall i :: 0 <= i < |asl| && asl[i].SkipForward? && i !in stack ==>
          i < asl[i].target < |asl| && asl[asl[i].target] == SkipBackward(i))
    && (forall i :: 0 <= i < |asl| && asl[i].SkipBackward? ==>
          asl[i].target < i && asl[asl[i].target] == SkipForward(i))
    && (forall i, j ::
          0 <= i < j < |asl| && asl[i].SkipForward? && i !in stack &&
          asl[j].SkipForward? && j !in stack && j < asl[i].target
          ==> asl[j].target < asl[i].target)
    && (forall i, j :: 0 <= i < |asl| && 0 <= j < |stack| && asl[i].SkipForward? && i !in stack ==>
          !(i < stack[j] < asl[i].target))
  }

  /** Every `[` points at its matching `]`, and that `]` points back at it. */
  ghost predicate Paired(asl: seq<Instruction>) {
    && (forall i :: 0 <= i < |asl| && asl[i].SkipForward? ==>
          i < asl[i].target < |asl| && asl[asl[i].target] == SkipBackward(i))
    && (forall i :: 0 <= i < |asl| && asl[i].SkipBackward? ==>
          asl[i].target < i && asl[asl[i].target] == SkipForward(i))
  }

  /** Bracket pairs never cross: a pair opened inside another closes inside it. */
  ghost predicate Nested(asl: seq<Instruction>) {
    forall i, j :: 0 <= i < j < |asl| && asl[i].SkipForward? && asl[j].SkipForward? && j < asl[i].target ==>
      asl[j].target < asl[i].target
  }

  /** A finished scan with an empty stack is fully paired and nested. */
  lemma ResolvedComplete(asl: seq<Instruction>)
    requires Resolved(asl, [])
    ensures Paired(asl) && Nested(asl)
  {
  }

  lemma RenderAllSnoc(asl: seq<Instruction>, i: Instruction)
    ensures RenderAll(asl + [i]) == RenderAll(asl) + [Render(i)]
  {
    assert RenderAll(asl + [i]) == RenderAll(asl) + [Render(i)];
  }

  /** Appending an instruction that is not a jump keeps the invariant. */
  lemma ResolvedSnoc(asl: seq<Instruction>, stack: seq<nat>, x: Instruction)
    requires Resolved(asl, stack)
    requires !x.SkipForward? && !x.SkipBackward?
    ensures Resolved(asl + [x], stack)
  {
    var a := asl + [x];
    forall i | 0 <= i < |a| && a[i].SkipForward? && i !in stack
      ensures i < a[i].target < |a| && a[a[i].target] == SkipBackward(i)
    {
      assert i < |asl| && a[i] == asl[i];
    }
    forall i | 0 <= i < |a| && a[i].SkipBackward?
      ensures a[i].target < i && a[a[i].target] == SkipForward(i)
    {
      assert i < |asl| && a[i] == asl[i];
    }
    forall i, j | 0 <= i < j < |a| && a[i].SkipForward? && i !in stack &&
                  a[j].SkipForward? && j !in stack && j < a[i].target
      ensures a[j].target < a[i].target
    {
      assert a[i] == asl[i] && a[j] == asl[j];
    }
    forall i, j | 0 <= i < |a| && 0 <= j < |stack| && a[i].SkipForward? && i !in stack
      ensures !(i < stack[j] < a[i].target)
    {
      assert a[i] == asl[i];
    }
  }

  /** A non-bracket symbol appends its instruction and keeps the invariant. */
  lemma FeedPlain(c: char, asl: seq<Instruction>, stack: seq<nat>)
    requires Resolved(asl, stack)
    requires IsSymbol(c) && c != '[' && c != ']'
    ensures var (asl', stack') := Feed(c, asl, stack);
      Resolved(asl', stack') && RenderAll(asl') == RenderAll(asl) + [c] && stack' == stack
  {
    var x := match c
      case '>' => IncPtr case '<' => DecPtr case '+' => IncVal case '-' => DecVal
      case '.' => Output case _ => Input;
    assert Feed(c, asl, stack) == (asl + [x], stack);
    ResolvedSnoc(asl, stack, x);
    RenderAllSnoc(asl, x);
  }

  /** After a `[`, every jump not on the stack still points at its partner. */
  lemma FeedOpenPairs(asl: seq<Instruction>, stack: seq<nat>)
    requires Resolved(asl, stack)
    ensures var (a, s) := Feed('[', asl, stack);
      && (forall i :: 0 <= i < |a| && a[i].SkipForward? && i !in s ==>
            i < a[i].target < |a| && a[a[i].target] == SkipBackward(i))
      && (forall i :: 0 <= i < |a| && a[i].SkipBackward? ==>
            a[i].target < i && a[a[i].target] == SkipForward(i))
  {
    var n := |asl|;
    var a := asl + [SkipForward(0)];
    var s := stack + [n];
    assert Feed('[', asl, stack) == (a, s);
    forall i | 0 <= i < |a| && a[i].SkipForward? && i !in s
      ensures i < a[i].target < |a| && a[a[i].target] == SkipBackward(i)
    {
      assert i < n && a[i] == asl[i] && i !in stack;
    }
    forall i | 0 <= i < |a| && a[i].SkipBackward?
      ensures a[i].target < i && a[a[i].target] == SkipForward(i)
    {
      assert i < n && a[i] == asl[i];
    }
  }

  /** After a `[`, closed pairs still nest, and none encloses an open `[`. */
  lemma FeedOpenNests(asl: seq<Instruction>, stack: seq<nat>)
    requires Resolved(asl, stack)
    ensures var (a, s) := Feed('[', asl, stack);
      && (forall i, j ::
            0 <= i < j < |a| && a[i].SkipForward? && i !in s &&
            a[j].SkipForward? && j !in s && j < a[i].target
            ==> a[j].target < a[i].target)
      && (forall i, j :: 0 <= i < |a| && 0 <= j < |s| && a[i].SkipForward? && i !in s ==>
            !(i < s[j] < a[i].target))
  {
    var n := |asl|;
    var a := asl + [SkipForward(0)];
    var s := stack + [n];
    assert Feed('[', asl, stack) == (a, s);
    forall i, j | 0 <= i < j < |a| && a[i].SkipForward? && i !in s &&
                  a[j].SkipForward? && j !in s && j < a[i].target
      ensures a[j].target < a[i].target
    {
      assert j < n && a[i] == asl[i] && a[j] == asl[j] && i !in stack && j !in stack;
    }
    forall i, j | 0 <= i < |a| && 0 <= j < |s| && a[i].SkipForward? && i !in s
      ensures !(i < s[j] < a[i].target)
    {
      assert i < n && a[i] == asl[i] && i !in stack;
      if j < |stack| {
        assert s[j] == stack[j];
      }
    }
  }

  /** `[` pushes its index and a placeholder, keeping the invariant. */
  lemma FeedOpen(asl: seq<Instruction>, stack: seq<nat>)
    requires Resolved(asl, stack)
    ensures var (asl', stack') := Feed('[', asl, stack);
      Resolved(asl', stack') && RenderAll(asl') == RenderAll(asl) + ['['] && stack' == stack + [|asl|]
  {
    var a := asl + [SkipForward(0)];
    var s := stack + [|asl|];
    assert Feed('[', asl, stack) == (a, s);
    FeedOpenPairs(asl, stack);
    FeedOpenNests(asl, stack);
    assert forall j :: 0 <= j < |s| ==> a[s[j]] == SkipForward(0);
    RenderAllSnoc(asl, SkipForward(0));
  }

  /** Popping an increasing stack removes exactly its top. */
  lemma PopStack(stack: seq<nat>)
    requires stack != []
    requires forall j, k :: 0 <= j < k < |stack| ==> stack[j] < stack[k]
    ensures forall x :: x in stack[..|stack| - 1] <==> x in stack && x != stack[|stack| - 1]
  {
    var s := stack[..|stack| - 1];
    forall x ensures x in s <==> x in stack && x != stack[|stack| - 1] {
      if x in stack && x != stack[|stack| - 1] {
        var j :| 0 <= j < |stack| && stack[j] == x;
        assert s[j] == x;
      }
    }
  }

  /** After a `]`, the stack is still made of placeholders in increasing
      order. */
  lemma FeedCloseStack(asl: seq<Instruction>, stack: seq<nat>)
    requires Resolved(asl, stack)
    requires stack != []
    ensures var (a, s) := Feed(']', asl, stack);
      && StackBelow(a, s)
      && (forall j :: 0 <= j < |s| ==> a[s[j]] == SkipForward(0))
      && (forall j, k :: 0 <= j < k < |s| ==> s[j] < s[k])
  {
    var open := stack[|stack| - 1];
    var a := asl[open := SkipForward(|asl|)] + [SkipBackward(open)];
    var s := stack[..|stack| - 1];
    assert Feed(']', asl, stack) == (a, s);
    forall j | 0 <= j < |s| ensures a[s[j]] == SkipForward(0) {
      assert s[j] == stack[j] < open;
    }
  }

  /** After a `]`, every forward jump not on the stack points at its partner. */
  lemma FeedCloseForward(asl: seq<Instruction>, stack: seq<nat>)
    requires Resolved(asl, stack)
    requires stack != []
    ensures var (a, s) := Feed(']', asl, stack);
      forall i :: 0 <= i < |a| && a[i].SkipForward? && i !in s ==>
        i < a[i].target < |a| && a[a[i].target] == SkipBackward(i)
  {
    var open := stack[|stack| - 1];
    var a := asl[open := SkipForward(|asl|)] + [SkipBackward(open)];
    var s := stack[..|stack| - 1];
    assert Feed(']', asl, stack) == (a, s);
    PopStack(stack);
    forall i | 0 <= i < |a| && a[i].SkipForward? && i !in s
      ensures i < a[i].target < |a| && a[a[i].target] == SkipBackward(i)
    {
      if i != open {
        assert a[i] == asl[i] && i !in stack;
        assert asl[asl[i].target] == SkipBackward(i);
        assert asl[i].target != open;
      }
    }
  }

  /** After a `]`, every backward jump points at its partner. */
  lemma FeedCloseBackward(asl: seq<Instruction>, stack: seq<nat>)
    requires Resolved(asl, stack)
    requires stack != []
    ensures var (a, s) := Feed(']', asl, stack);
      forall i :: 0 <= i < |a| && a[i].SkipBackward? ==>
        a[i].target < i && a[a[i].target] == SkipForward(i)
  {
    var n := |asl|;
    var open := stack[|stack| - 1];
    var a := asl[open := SkipForward(n)] + [SkipBackward(open)];
    assert Feed(']', asl, stack).0 == a;
    forall i | 0 <= i < |a| && a[i].SkipBackward?
      ensures a[i].target < i && a[a[i].target] == SkipForward(i)
    {
      if i < n {
        assert a[i] == asl[i];
        assert asl[asl[i].target] == SkipForward(i);
        assert asl[i].target != open;
      }
    }
  }

  /** After a `]`, closed pairs still nest. */
  lemma FeedCloseNested(asl: seq<Instruction>, stack: seq<nat>)
    requires Resolved(asl, stack)
    requires stack != []
    ensures var (a, s) := Feed(']', asl, stack);
      forall i, j ::
        0 <= i < j < |a| && a[i].SkipForward? && i !in s &&
        a[j].SkipForward? && j !in s && j < a[i].target
        ==> a[j].target < a[i].target
  {
    var n := |asl|;
    var open := stack[|stack| - 1];
    var a := asl[open := SkipForward(n)] + [SkipBackward(open)];
    var s := stack[..|stack| - 1];
    assert Feed(']', asl, stack) == (a, s);
    PopStack(stack);
    forall i, j | 0 <= i < j < |a| && a[i].SkipForward? && i !in s &&
                  a[j].SkipForward? && j !in s && j < a[i].target
      ensures a[j].target < a[i].target
    {
      if i == open {
        assert j < n && a[j] == asl[j] && j !in stack;
      } else {
        assert a[i] == asl[i] && i !in stack;
      }
    }
  }

  /** After a `]`, no closed pair encloses a still-open `[`. */
  lemma FeedCloseOutside(asl: seq<Instruction>, stack: seq<nat>)
    requires Resolved(asl, stack)
    requires stack != []
    ensures var (a, s) := Feed(']', asl, stack);
      forall i, j :: 0 <= i < |a| && 0 <= j < |s| && a[i].SkipForward? && i !in s ==>
        !(i < s[j] < a[i].target)
  {
    var n := |asl|;
    var open := stack[|stack| - 1];
    var a := asl[open := SkipForward(n)] + [SkipBackward(open)];
    var s := stack[..|stack| - 1];
    assert Feed(']', asl, stack) == (a, s);
    PopStack(stack);
    forall i, j | 0 <= i < |a| && 0 <= j < |s| && a[i].SkipForward? && i !in s
      ensures !(i < s[j] < a[i].target)
    {
      assert s[j] == stack[j] && stack[j] < open;
      if i != open {
        assert a[i] == asl[i] && i !in stack;
      }
    }
  }

  /** `]` pops the innermost open `[`, patches its placeholder to point at
      the new `SkipBackward`, which points back, and keeps the invariant. */
  lemma FeedClose(asl: seq<Instruction>, stack: seq<nat>)
    requires Resolved(asl, stack)
    requires stack != []
    ensures var (asl', stack') := Feed(']', asl, stack);
      Resolved(asl', stack') && RenderAll(asl') == RenderAll(asl) + [']'] && |stack'| == |stack| - 1
  {
    FeedCloseStack(asl, stack);
    FeedCloseForward(asl, stack);
    FeedCloseBackward(asl, stack);
    FeedCloseNested(asl, stack);
    FeedCloseOutside(asl, stack);
    var open := stack[|stack| - 1];
    var patched := asl[open := SkipForward(|asl|)];
    assert Feed(']', asl, stack).0 == patched + [SkipBackward(open)];
    assert RenderAll(patched) == RenderAll(asl);
    RenderAllSnoc(patched, SkipBackward(open));
  }

  /** Comment characters leave the scan's state untouched, so scanning a
      text and scanning its symbols alone end alike. */
  lemma {:induction false} ConsumeIgnoresComments(rest: string, asl: seq<Instruction>, stack: seq<nat>)
    requires StackBelow(asl, stack)
    ensures Consume(rest, asl, stack) == Consume(Filter(rest), asl, stack)
    decreases |rest|
  {
    if rest != [] {
      var c := rest[0];
      assert Filter(rest) == (if IsSymbol(c) then [c] else []) + Filter(rest[1..]);
      if IsSymbol(c) {
        var f := [c] + Filter(rest[1..]);
        assert Filter(rest) == f && f[0] == c && f[1..] == Filter(rest[1..]);
        if !(c == ']' && stack == []) {
          var (asl', stack') := Feed(c, asl, stack);
          ConsumeIgnoresComments(rest[1..], asl', stack');
        }
      } else {
        assert c != ']' && Feed(c, asl, stack) == (asl, stack);
        assert Consume(rest, asl, stack) == Consume(rest[1..], asl, stack);
        assert Filter(rest) == Filter(rest[1..]);
        ConsumeIgnoresComments(rest[1..], asl, stack);
      }
    }
  }

  /** One unfolding of the scan past a character that does not stop it. */
  lemma ConsumeCons(c: char, t: string, asl: seq<Instruction>, stack: seq<nat>)
    requires StackBelow(asl, stack)
    requires c != ']' || stack != []
    ensures Consume([c] + t, asl, stack) == Consume(t, Feed(c, asl, stack).0, Feed(c, asl, stack).1)
  {
    assert ([c] + t)[0] == c && ([c] + t)[1..] == t;
  }

  /** The invariant, the rendering and the depth after one symbol. */
  lemma FeedSymbol(c: char, asl: seq<Instruction>, stack: seq<nat>)
    requires Resolved(asl, stack)
    requires IsSymbol(c)
    requires c != ']' || stack != []
    ensures var (asl', stack') := Feed(c, asl, stack);
      Resolved(asl', stack') && RenderAll(asl') == RenderAll(asl) + [c] &&
      |asl'| == |asl| + 1 && |stack'| == |stack| + Delta(c)
  {
    if c == '[' {
      FeedOpen(asl, stack);
    } else if c == ']' {
      FeedClose(asl, stack);
    } else {
      FeedPlain(c, asl, stack);
    }
  }

  /** What the scan of a text of symbols does with the brackets: either it
      consumes all of it, there being no stray `]`, and the stack grows by the
      text's depth; or it stops at the first stray `]`, reporting the number
      of instructions emitted before it. */
  lemma {:induction false} ConsumeDepth(s: string, asl: seq<Instruction>, stack: seq<nat>)
    requires AllSymbols(s)
    requires StackBelow(asl, stack)
    ensures Consume(s, asl, stack).Scanned? ==>
      NoStrayClose(s, |stack|) && |Consume(s, asl, stack).stack| == |stack| + Depth(s)
    ensures Consume(s, asl, stack).StrayClose? ==>
      var n := Consume(s, asl, stack).at;
      |asl| <= n && StrayCloseAt(s, |stack|, n - |asl|)
    decreases |s|
  {
    if s == [] {
      assert Consume(s, asl, stack) == Scanned(asl, stack);
      assert NoStrayClose(s, |stack|) by {
        forall k | 0 <= k <= |s| ensures |stack| + Depth(s[..k]) >= 0 {
          assert s[..k] == [];
        }
      }
    } else {
      var c, t := s[0], s[1..];
      assert s == [c] + t;
      if c == ']' && stack == [] {
        assert Consume(s, asl, stack) == StrayClose(|asl|);
        StrayCloseFirst(s);
      } else {
        var (asl', stack') := Feed(c, asl, stack);
        ConsumeCons(c, t, asl, stack);
        assert Consume(s, asl, stack) == Consume(t, asl', stack');
        assert |asl'| == |asl| + 1 && |stack'| == |stack| + Delta(c);
        assert AllSymbols(t);
        ConsumeDepth(t, asl', stack');
        var o := Consume(t, asl', stack');
        if o.Scanned? {
          NoStrayCons(c, t, |stack|);
          assert Depth(s) == Delta(c) + Depth(t);
        } else {
          StrayCloseCons(c, t, |stack|, o.at - |asl'|);
        }
      }
    }
  }

  /** A scan of a text of symbols that consumes all of it keeps the loop
      invariant. */
  lemma {:induction false} ConsumeKeepsResolved(s: string, asl: seq<Instruction>, stack: seq<nat>)
    requires AllSymbols(s)
    requires Resolved(asl, stack)
    ensures var o := Consume(s, asl, stack);
      o.Scanned? ==> Resolved(o.asl, o.stack)
    decreases |s|
  {
    if s != [] && !(s[0] == ']' && stack == []) {
      var c, t := s[0], s[1..];
      var (asl', stack') := Feed(c, asl, stack);
      assert Consume(s, asl, stack) == Consume(t, asl', stack');
      FeedSymbol(c, asl, stack);
      assert AllSymbols(t);
      ConsumeKeepsResolved(t, asl', stack');
    }
  }

  /** The part of the invariant that rendering needs: every index on the
      stack names a forward jump. */
  predicate OpenOnStack(asl: seq<Instruction>, stack: seq<nat>) {
    StackBelow(asl, stack) && forall j :: 0 <= j < |stack| ==> asl[stack[j]].SkipForward?
  }

  /** One symbol renders as itself and keeps the stack of forward jumps. */
  lemma FeedRenders(c: char, asl: seq<Instruction>, stack: seq<nat>)
    requires OpenOnStack(asl, stack)
    requires IsSymbol(c)
    requires c != ']' || stack != []
    ensures var (asl', stack') := Feed(c, asl, stack);
      OpenOnStack(asl', stack') && RenderAll(asl') == RenderAll(asl) + [c]
  {
    var (asl', stack') := Feed(c, asl, stack);
    if c == ']' {
      var open := stack[|stack| - 1];
      var patched := asl[open := SkipForward(|asl|)];
      assert asl' == patched + [SkipBackward(open)];
      assert RenderAll(patched) == RenderAll(asl);
      RenderAllSnoc(patched, SkipBackward(open));
      assert forall j :: 0 <= j < |stack'| ==> stack'[j] == stack[j];
    } else {
      var x := asl'[|asl|];
      assert asl' == asl + [x] && Render(x) == c;
      RenderAllSnoc(asl, x);
    }
  }

  /** A scan of a text of symbols that consumes all of it emits one
      instruction per symbol, rendering back to it. */
  lemma {:induction false} ConsumeRenders(s: string, asl: seq<Instruction>, stack: seq<nat>)
    requires AllSymbols(s)
    requires OpenOnStack(asl, stack)
    ensures var o := Consume(s, asl, stack);
      o.Scanned? ==> RenderAll(o.asl) == RenderAll(asl) + s
    decreases |s|
  {
    if s == [] {
      assert RenderAll(asl) + s == RenderAll(asl);
    } else if !(s[0] == ']' && stack == []) {
      var c, t := s[0], s[1..];
      var (asl', stack') := Feed(c, asl, stack);
      assert Consume(s, asl, stack) == Consume(t, asl', stack');
      FeedRenders(c, asl, stack);
      assert AllSymbols(t);
      ConsumeRenders(t, asl', stack');
      assert RenderAll(asl') + t == RenderAll(asl) + s by {
        assert s == [c] + t;
      }
    }
  }

  /** Both together: a finished scan keeps the invariant and renders back
      to the symbols consumed. */
  lemma ConsumeResolves(s: string, asl: seq<Instruction>, stack: seq<nat>)
    requires AllSymbols(s)
    requires Resolved(asl, stack)
    ensures var o := Consume(s, asl, stack);
      o.Scanned? ==> Resolved(o.asl, o.stack) && RenderAll(o.asl) == RenderAll(asl) + s
  {
    ConsumeKeepsResolved(s, asl, stack);
    ConsumeRenders(s, asl, stack);
  }

  /** One iteration of the loop in terms of the remaining text: a `]` that
      finds the stack empty stops the scan there, any other character is fed. */
  lemma ConsumeAt(source: string, i: nat, asl: seq<Instruction>, stack: seq<nat>)
    requires i < |source|
    requires StackBelow(asl, stack)
    ensures source[i] == ']' && stack == [] ==> Consume(source[i..], asl, stack) == StrayClose(|asl|)
    ensures !(source[i] == ']' && stack == []) ==>
      Consume(source[i..], asl, stack) ==
      Consume(source[i + 1..], Feed(source[i], asl, stack).0, Feed(source[i], asl, stack).1)
  {
    assert source[i..][0] == source[i] && source[i..][1..] == source[i + 1..];
  }

  /** A scan of a whole source text ends as the scan of its symbols does. */
  lemma ConsumeFiltered(source: string)
    ensures Consume(source, [], []) == Consume(Filter(source), [], [])
    ensures AllSymbols(Filter(source))
  {
    ConsumeIgnoresComments(source, [], []);
  }

  /** How the scan of a whole source text treats its brackets: either it
      saw no stray `]` and leaves as many `[` open as the depth, or it
      stopped at the first stray `]`. */
  lemma ConsumeSourceDepth(source: string)
    ensures var o, f := Consume(source, [], []), Filter(source);
      o.Scanned? ==> NoStrayClose(f, 0) && |o.stack| == Depth(f)
    ensures var o, f := Consume(source, [], []), Filter(source);
      o.StrayClose? ==> StrayCloseAt(f, 0, o.at)
  {
    ConsumeFiltered(source);
    ConsumeDepth(Filter(source), [], []);
  }

  /** A whole scan that finishes keeps the invariant and renders back to
      the source's symbols. */
  lemma ConsumeSourceResolves(source: string)
    ensures var o, f := Consume(source, [], []), Filter(source);
      o.Scanned? ==> Resolved(o.asl, o.stack) && RenderAll(o.asl) == f
  {
    var f := Filter(source);
    ConsumeFiltered(source);
    assert RenderAll([]) + f == f;
    ConsumeResolves(f, [], []);
  }

  /** Everything known about a scan of a whole source text from the empty
      state, in terms of its symbols `f`. */
  lemma ConsumeSource(source: string)
    ensures var o, f := Consume(source, [], []), Filter(source);
      o.Scanned? ==>
        NoStrayClose(f, 0) && |o.stack| == Depth(f) && Resolved(o.asl, o.stack) && RenderAll(o.asl) == f
    ensures var o, f := Consume(source, [], []), Filter(source);
      o.StrayClose? ==> StrayCloseAt(f, 0, o.at)
  {
    ConsumeSourceDepth(source);
    ConsumeSourceResolves(source);
  }
}
