/** Which lines of a file are test code, by a stack of open blocks. */
module TestContexts {
  import opened Json

  datatype Item = NoItem | Item(isTestsModule: bool)

  /** A sanitized line, with what the scanner's patterns say of it. */
  datatype Line = Line(code: string, isTestAttr: bool, item: Item, blank: bool, startsAttr: bool,
      endsWithSemicolon: bool)

  datatype State = State(stack: seq<bool>, pendingAttr: bool, pendingBlock: Option<bool>)

  const START := State([], false, None)

  function Top(stack: seq<bool>): bool { stack != [] && stack[|stack| - 1] }

  /** The item and attribute rules at the start of a line. */
  function Header(s: State, line: Line): State {
    var attr := s.pendingAttr || line.isTestAttr;
    match line.item
    case Item(isTestsModule) => s.(pendingAttr := false, pendingBlock := Some(attr || isTestsModule || Top(s.stack)))
    case NoItem => s.(pendingAttr := attr && (line.blank || line.startsAttr))
  }

  function Context(s: State, line: Line): bool { Top(s.stack) || Header(s, line).pendingBlock == Some(true) }

  function Brace(s: State, c: char): State {
    if c == '{' then
      if s.pendingBlock.Some? then s.(stack := s.stack + [s.pendingBlock.value], pendingBlock := None)
      else s.(stack := s.stack + [Top(s.stack)])
    else if c == '}' && s.stack != [] then s.(stack := s.stack[..|s.stack| - 1])
    else s
  }

  function Braces(s: State, code: string): State {
    if code == "" then s else Brace(Braces(s, code[..|code| - 1]), code[|code| - 1])
  }

  function After(s: State, line: Line): State {
    var s := Braces(Header(s, line), line.code);
    if line.endsWithSemicolon then s.(pendingBlock := None) else s
  }

  function AfterAll(s: State, lines: seq<Line>): State {
    if lines == [] then s else After(AfterAll(s, lines[..|lines| - 1]), lines[|lines| - 1])
  }

  /** Whether line `i` is in test context. */
  function ContextAt(s: State, lines: seq<Line>, i: nat): bool
    requires i < |lines|
  {
    Context(AfterAll(s, lines[..i]), lines[i])
  }

  method WalkBraces(stack: seq<bool>, ghost attr: bool, pending: Option<bool>, code: string)
    returns (blockStack: seq<bool>, pendingBlockContext: Option<bool>)
    ensures State(blockStack, attr, pendingBlockContext) == Braces(State(stack, attr, pending), code)
  {
    blockStack, pendingBlockContext := stack, pending;
    for k := 0 to |code|
      invariant State(blockStack, attr, pendingBlockContext) == Braces(State(stack, attr, pending), code[..k])
    {
      assert code[..k + 1][..k] == code[..k];
      var ch := code[k];
      if ch == '{' {
        if pendingBlockContext.Some? {
          blockStack := blockStack + [pendingBlockContext.value];
          pendingBlockContext := None;
        } else {
          blockStack := blockStack + [if blockStack != [] then blockStack[|blockStack| - 1] else false];
        }
      } else if ch == '}' && blockStack != [] {
        blockStack := blockStack[..|blockStack| - 1];
      }
    }
    assert code[..|code|] == code;
  }

  method LineTestContexts(lines: seq<Line>) returns (contexts: seq<bool>)
    ensures |contexts| == |lines|
    ensures forall i | 0 <= i < |lines| :: contexts[i] == ContextAt(START, lines, i)
  {
    contexts := seq(|lines|, _ => false);
    var blockStack: seq<bool> := [];
    var pendingTestAttr := false;
    var pendingBlockContext: Option<bool> := None;
    for idx := 0 to |lines|
      invariant |contexts| == |lines|
      invariant State(blockStack, pendingTestAttr, pendingBlockContext) == AfterAll(START, lines[..idx])
      invariant forall i | 0 <= i < idx :: contexts[i] == ContextAt(START, lines, i)
    {
      var line := lines[idx];
      ghost var s := AfterAll(START, lines[..idx]);
      assert lines[..idx + 1][..idx] == lines[..idx];
      var currentContext := if blockStack != [] then blockStack[|blockStack| - 1] else false;
      if line.isTestAttr { pendingTestAttr := true; }
      if line.item.Item? {
        pendingBlockContext := Some((pendingTestAttr || line.item.isTestsModule) || currentContext);
        pendingTestAttr := false;
      } else if !line.blank && !line.startsAttr && pendingTestAttr {
        pendingTestAttr := false;
      }
      contexts := contexts[idx := currentContext || pendingBlockContext == Some(true)];
      blockStack, pendingBlockContext := WalkBraces(blockStack, pendingTestAttr, pendingBlockContext, line.code);
      if line.endsWithSemicolon { pendingBlockContext := None; }
    }
  }

  // ---------------------------------------------------------------- the shape of the stack

  /** Blocks that are not test code, then blocks that are; and a block waiting to be opened that is not test
      code is not inside one that is. */
  predicate Shape(s: State) {
    && (forall i, j | 0 <= i < j < |s.stack| :: s.stack[i] ==> s.stack[j])
    && (s.pendingBlock == Some(false) ==> forall i | 0 <= i < |s.stack| :: !s.stack[i])
  }

  lemma {:induction false} BracesKeepShape(s: State, code: string)
    requires Shape(s)
    ensures Shape(Braces(s, code))
  {
    if code != "" { BracesKeepShape(s, code[..|code| - 1]); }
  }

  /** At every point of every file. */
  lemma {:induction false} StackIsShaped(lines: seq<Line>)
    ensures Shape(AfterAll(START, lines))
  {
    if lines != [] {
      var s, line := AfterAll(START, lines[..|lines| - 1]), lines[|lines| - 1];
      StackIsShaped(lines[..|lines| - 1]);
      assert Shape(Header(s, line));
      BracesKeepShape(Header(s, line), line.code);
    }
  }

  /** The running brace depth, clipped at zero. */
  function Depth(d: nat, code: string): nat {
    if code == "" then d
    else
      var d := Depth(d, code[..|code| - 1]);
      var c := code[|code| - 1];
      if c == '{' then d + 1 else if c == '}' && d > 0 then d - 1 else d
  }

  function DepthAll(d: nat, lines: seq<Line>): nat {
    if lines == [] then d else Depth(DepthAll(d, lines[..|lines| - 1]), lines[|lines| - 1].code)
  }

  lemma {:induction false} BracesCount(s: State, code: string)
    ensures |Braces(s, code).stack| == Depth(|s.stack|, code)
  {
    if code != "" { BracesCount(s, code[..|code| - 1]); }
  }

  lemma {:induction false} StackIsDepth(lines: seq<Line>)
    ensures |AfterAll(START, lines).stack| == DepthAll(0, lines)
  {
    if lines != [] {
      StackIsDepth(lines[..|lines| - 1]);
      BracesCount(Header(AfterAll(START, lines[..|lines| - 1]), lines[|lines| - 1]), lines[|lines| - 1].code);
    }
  }

  // ---------------------------------------------------------------- inheritance

  /** From depth `d`, the braces never close below depth `h`. */
  ghost predicate StaysIn(d: nat, code: string, h: nat) {
    forall k | 0 <= k <= |code| :: Depth(d, code[..k]) >= h
  }

  ghost predicate StaysInAll(d: nat, lines: seq<Line>, h: nat) {
    forall k | 0 <= k < |lines| :: StaysIn(DepthAll(d, lines[..k]), lines[k].code, h)
  }

  lemma {:induction false} BracesKeepBelow(s: State, code: string, h: nat)
    requires h <= |s.stack| && StaysIn(|s.stack|, code, h)
    ensures h <= |Braces(s, code).stack| && Braces(s, code).stack[..h] == s.stack[..h]
  {
    if code != "" {
      var front := code[..|code| - 1];
      assert forall k | 0 <= k <= |front| :: front[..k] == code[..k];
      BracesKeepBelow(s, front, h);
      BracesCount(s, code);
      assert code[..|code|] == code;
    }
  }

  lemma {:induction false} LinesKeepBelow(s: State, lines: seq<Line>, h: nat)
    requires h <= |s.stack| && StaysInAll(|s.stack|, lines, h)
    ensures |AfterAll(s, lines).stack| == DepthAll(|s.stack|, lines) >= h
    ensures AfterAll(s, lines).stack[..h] == s.stack[..h]
  {
    if lines != [] {
      var n := |lines| - 1;
      var front := lines[..n];
      assert forall k | 0 <= k < n :: front[..k] == lines[..k];
      LinesKeepBelow(s, front, h);
      var header := Header(AfterAll(s, front), lines[n]);
      assert lines[..n] == front;
      BracesKeepBelow(header, lines[n].code, h);
      BracesCount(header, lines[n].code);
    }
  }

  lemma {:induction false} AfterAllSplits(s: State, a: seq<Line>, b: seq<Line>)
    ensures AfterAll(s, a + b) == AfterAll(AfterAll(s, a), b)
  {
    if b == [] {
      assert a + b == a;
    } else {
      assert (a + b)[..|a + b| - 1] == a + b[..|b| - 1];
      AfterAllSplits(s, a, b[..|b| - 1]);
    }
  }

  /** If after some lines the innermost block is test code, then every further line that starts before that
      block closes is in test context, whatever blocks it opens and closes. */
  lemma TestContextIsInherited(lines: seq<Line>, from: nat, i: nat)
    requires from <= i < |lines| && Top(AfterAll(START, lines[..from]).stack)
    requires var h := |AfterAll(START, lines[..from]).stack|; StaysInAll(h, lines[from..i], h)
    ensures ContextAt(START, lines, i)
  {
    assert lines[..i] == lines[..from] + lines[from..i];
    AfterAllSplits(START, lines[..from], lines[from..i]);
    StackIsShaped(lines[..i]);
    InheritedFrom(AfterAll(START, lines[..from]), lines[from..i]);
  }

  lemma InheritedFrom(s: State, further: seq<Line>)
    requires Top(s.stack) && StaysInAll(|s.stack|, further, |s.stack|) && Shape(AfterAll(s, further))
    ensures Top(AfterAll(s, further).stack)
  {
    LinesKeepBelow(s, further, |s.stack|);
    TopAbove(s, AfterAll(s, further));
  }

  lemma TopAbove(before: State, after: State)
    requires Top(before.stack) && Shape(after) && |before.stack| <= |after.stack|
    requires after.stack[..|before.stack|] == before.stack[..|before.stack|]
    ensures Top(after.stack)
  {
    var h := |before.stack|;
    assert after.stack[h - 1] == after.stack[..h][h - 1] == before.stack[..h][h - 1] == before.stack[h - 1];
  }

  /** A block opened while the innermost block is test code is test code. */
  lemma OpenedInsideIsTest(lines: seq<Line>, i: nat, k: nat)
    requires i < |lines| && k < |lines[i].code| && lines[i].code[k] == '{'
    requires Top(Braces(Header(AfterAll(START, lines[..i]), lines[i]), lines[i].code[..k]).stack)
    ensures Top(Braces(Header(AfterAll(START, lines[..i]), lines[i]), lines[i].code[..k + 1]).stack)
  {
    var s, line := AfterAll(START, lines[..i]), lines[i];
    StackIsShaped(lines[..i]);
    BracesKeepShape(Header(s, line), line.code[..k]);
    assert line.code[..k + 1][..k] == line.code[..k];
  }
}
