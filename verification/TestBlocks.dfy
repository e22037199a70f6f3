/** Which lines are test code, told by the attributes, items and braces of the file. */
module TestBlocks {
  import opened Json
  import opened TestContexts

  // ---------------------------------------------------------------- a file laid out

  /** A file laid out in order: of each line what its patterns say, its characters, and its end. */
  datatype Mark = Head(line: Line) | Char(c: char) | End(semicolon: bool)

  function Chars(code: string): seq<Mark> { seq(|code|, i requires 0 <= i < |code| => Char(code[i])) }

  function LaidOut(line: Line): seq<Mark> { [Head(line)] + Chars(line.code) + [End(line.endsWithSemicolon)] }

  function Layout(lines: seq<Line>): seq<Mark> {
    if lines == [] then [] else Layout(lines[..|lines| - 1]) + LaidOut(lines[|lines| - 1])
  }

  predicate IsItem(m: Mark) { m.Head? && m.line.item.Item? }

  /** A line that an attribute may stand on, or that may stand between it and its item. */
  predicate CarriesAttr(m: Mark) { m.Head? ==> m.line.item.NoItem? && (m.line.blank || m.line.startsAttr) }

  /** A test attribute stands before index `n`, and since then only attributes and blank lines. */
  ghost predicate AttrBefore(marks: seq<Mark>, n: nat)
    requires n <= |marks|
  {
    exists j | 0 <= j < n ::
      marks[j].Head? && marks[j].line.isTestAttr && forall r | j <= r < n :: CarriesAttr(marks[r])
  }

  /** The item is a module named `tests`, or a test attribute is on its line or before it. */
  ghost predicate Marked(marks: seq<Mark>, h: nat)
    requires h < |marks| && IsItem(marks[h])
  {
    marks[h].line.item.isTestsModule || marks[h].line.isTestAttr || AttrBefore(marks, h)
  }

  /** Open braces before index `n`; a closing brace without one is passed over. */
  function DepthTo(marks: seq<Mark>, n: nat): nat
    requires n <= |marks|
  {
    if n == 0 then 0
    else
      var d := DepthTo(marks, n - 1);
      if marks[n - 1] == Char('{') then d + 1 else if marks[n - 1] == Char('}') && d > 0 then d - 1 else d
  }

  /** The block that opens at index `q` is open at index `n`. */
  ghost predicate OpenAt(marks: seq<Mark>, q: nat, n: nat)
    requires n <= |marks|
  {
    q < n && marks[q] == Char('{') && forall r | q < r <= n :: DepthTo(marks, r) > DepthTo(marks, q)
  }

  /** The item on index `h` has not found its brace before index `n`: no brace, no other item and no line that ends with
      a semicolon came between. */
  predicate WaitsAt(marks: seq<Mark>, h: nat, n: nat)
    requires n <= |marks|
  {
    && h < n && IsItem(marks[h])
    && forall r | h < r < n :: !IsItem(marks[r]) && marks[r] != Char('{') && marks[r] != End(true)
  }

  ghost predicate SomeWaits(marks: seq<Mark>, n: nat)
    requires n <= |marks|
  {
    exists h :: WaitsAt(marks, h, n)
  }

  ghost predicate TestItemWaits(marks: seq<Mark>, n: nat)
    requires n <= |marks|
    decreases n, 1
  {
    exists h :: WaitsAt(marks, h, n) && IsTestItem(marks, h)
  }

  /** A block is a test block when the item that waits for its brace is test code; or, when none waits, when it lies in
      one. */
  ghost predicate IsTestBlock(marks: seq<Mark>, q: nat)
    requires q < |marks|
    decreases q, 2
  {
    if SomeWaits(marks, q) then TestItemWaits(marks, q) else InTestBlock(marks, q)
  }

  /** An item is test code when it is marked so, or its line starts inside a test block. */
  ghost predicate IsTestItem(marks: seq<Mark>, h: nat)
    requires h < |marks| && IsItem(marks[h])
    decreases h, 2
  {
    Marked(marks, h) || InTestBlock(marks, h)
  }

  ghost predicate InTestBlock(marks: seq<Mark>, n: nat)
    requires n <= |marks|
    decreases n, 1
  {
    exists q | 0 <= q < n :: OpenAt(marks, q, n) && IsTestBlock(marks, q)
  }

  /** A line starts inside a test block, or an item that is test code waits for its brace. */
  ghost predicate InTestContext(marks: seq<Mark>, n: nat)
    requires n < |marks|
  {
    InTestBlock(marks, n) || TestItemWaits(marks, n + 1)
  }

  // ---------------------------------------------------------------- the scanner's state, mark by mark

  function Pass(s: State, m: Mark): State {
    match m
    case Head(line) => Header(s, line)
    case Char(c) => Brace(s, c)
    case End(semicolon) => if semicolon then s.(pendingBlock := None) else s
  }

  function StateAt(marks: seq<Mark>, n: nat): State
    requires n <= |marks|
  {
    if n == 0 then START else Pass(StateAt(marks, n - 1), marks[n - 1])
  }

  lemma {:induction false} ShapeAt(marks: seq<Mark>, n: nat)
    requires n <= |marks|
    ensures Shape(StateAt(marks, n))
  {
    if n > 0 { ShapeAt(marks, n - 1); }
  }

  lemma {:induction false} AttrAt(marks: seq<Mark>, n: nat)
    requires n <= |marks|
    ensures StateAt(marks, n).pendingAttr <==> AttrBefore(marks, n)
  {
    if n > 0 {
      AttrAt(marks, n - 1);
      var m := marks[n - 1];
      if AttrBefore(marks, n) {
        var j :| 0 <= j < n && marks[j].Head? && marks[j].line.isTestAttr
            && forall r | j <= r < n :: CarriesAttr(marks[r]);
        assert CarriesAttr(m);
        if j < n - 1 { assert AttrBefore(marks, n - 1); }
      }
      if StateAt(marks, n).pendingAttr && !AttrBefore(marks, n - 1) { assert marks[n - 1].Head?; }
    }
  }

  /** The positions of the open braces. */
  ghost function OpenBraces(marks: seq<Mark>, n: nat): seq<nat>
    requires n <= |marks|
  {
    if n == 0 then []
    else
      var open := OpenBraces(marks, n - 1);
      if marks[n - 1] == Char('{') then open + [n - 1]
      else if marks[n - 1] == Char('}') && open != [] then open[..|open| - 1]
      else open
  }

  /** They are the blocks that are open, each at its own depth. */
  ghost predicate AreOpen(marks: seq<Mark>, n: nat, open: seq<nat>)
    requires n <= |marks|
  {
    && |open| == DepthTo(marks, n)
    && (forall j | 0 <= j < |open| :: open[j] < n && OpenAt(marks, open[j], n) && DepthTo(marks, open[j]) == j)
    && (forall q | 0 <= q < n && OpenAt(marks, q, n) :: DepthTo(marks, q) < |open| && open[DepthTo(marks, q)] == q)
  }

  lemma OpenLater(marks: seq<Mark>, q: nat, n: nat)
    requires n < |marks| && q < n
    ensures OpenAt(marks, q, n + 1) <==> OpenAt(marks, q, n) && DepthTo(marks, n + 1) > DepthTo(marks, q)
  {
  }

  lemma {:induction false} BracesAreOpen(marks: seq<Mark>, n: nat)
    requires n <= |marks|
    ensures AreOpen(marks, n, OpenBraces(marks, n))
  {
    if n > 0 {
      var k := n - 1;
      var before, open := OpenBraces(marks, k), OpenBraces(marks, n);
      BracesAreOpen(marks, k);
      forall q | 0 <= q < k ensures OpenAt(marks, q, n) <==>
          OpenAt(marks, q, k) && DepthTo(marks, n) > DepthTo(marks, q) {
        OpenLater(marks, q, k);
      }
    }
  }

  /** The stack tells of each open block whether it is a test block, and what waits for a brace. */
  ghost predicate Tells(marks: seq<Mark>, n: nat, s: State)
    requires n <= |marks|
  {
    var open := OpenBraces(marks, n);
    && |s.stack| == |open|
    && (forall j | 0 <= j < |open| :: open[j] < n && (s.stack[j] <==> IsTestBlock(marks, open[j])))
    && (s.pendingBlock.Some? <==> SomeWaits(marks, n))
    && (forall h | WaitsAt(marks, h, n) :: s.pendingBlock == Some(IsTestItem(marks, h)))
  }

  lemma TopIsInTest(marks: seq<Mark>, n: nat, s: State)
    requires n <= |marks| && Tells(marks, n, s) && Shape(s)
    ensures Top(s.stack) <==> InTestBlock(marks, n)
  {
    BracesAreOpen(marks, n);
    var open := OpenBraces(marks, n);
    if Top(s.stack) {
      var q := open[|open| - 1];
      assert OpenAt(marks, q, n) && IsTestBlock(marks, q);
    }
    if InTestBlock(marks, n) {
      var q :| 0 <= q < n && OpenAt(marks, q, n) && IsTestBlock(marks, q);
      assert s.stack[DepthTo(marks, q)];
    }
  }

  lemma WaitsLater(marks: seq<Mark>, n: nat, h: nat)
    requires n < |marks|
    ensures WaitsAt(marks, h, n + 1) <==>
            if h == n then IsItem(marks[n])
            else WaitsAt(marks, h, n) && !IsItem(marks[n]) && marks[n] != Char('{') && marks[n] != End(true)
  {
  }

  lemma ItemTells(marks: seq<Mark>, n: nat, s: State)
    requires n < |marks| && IsItem(marks[n]) && Tells(marks, n, s) && Shape(s)
    requires s.pendingAttr <==> AttrBefore(marks, n)
    ensures Tells(marks, n + 1, Pass(s, marks[n]))
  {
    TopIsInTest(marks, n, s);
    WaitsLater(marks, n, n);
    var next := n + 1;
    forall h ensures WaitsAt(marks, h, next) <==> h == n { WaitsLater(marks, n, h); }
    assert IsTestItem(marks, n) <==> Marked(marks, n) || InTestBlock(marks, n);
  }

  lemma OpensAs(marks: seq<Mark>, n: nat, s: State)
    requires n < |marks| && Tells(marks, n, s) && Shape(s)
    ensures IsTestBlock(marks, n) <==> if s.pendingBlock.Some? then s.pendingBlock.value else Top(s.stack)
  {
    TopIsInTest(marks, n, s);
    if s.pendingBlock.Some? {
      var h :| WaitsAt(marks, h, n);
      assert TestItemWaits(marks, n) <==> IsTestItem(marks, h);
    }
  }

  lemma OpeningTells(marks: seq<Mark>, n: nat, s: State)
    requires n < |marks| && marks[n] == Char('{') && Tells(marks, n, s) && Shape(s)
    ensures Tells(marks, n + 1, Pass(s, marks[n]))
  {
    OpensAs(marks, n, s);
    var next := n + 1;
    forall h ensures !WaitsAt(marks, h, next) { WaitsLater(marks, n, h); }
  }

  lemma OtherTells(marks: seq<Mark>, n: nat, s: State)
    requires n < |marks| && !IsItem(marks[n]) && marks[n] != Char('{') && Tells(marks, n, s)
    ensures Tells(marks, n + 1, Pass(s, marks[n]))
  {
    var next := n + 1;
    forall h ensures WaitsAt(marks, h, next) <==> WaitsAt(marks, h, n) && marks[n] != End(true) {
      WaitsLater(marks, n, h);
    }
    if SomeWaits(marks, n) && marks[n] != End(true) {
      var h :| WaitsAt(marks, h, n);
      assert WaitsAt(marks, h, n + 1);
    }
    if SomeWaits(marks, n + 1) {
      var h :| WaitsAt(marks, h, n + 1);
      assert WaitsAt(marks, h, n);
    }
  }

  lemma {:induction false} StateTells(marks: seq<Mark>, n: nat)
    requires n <= |marks|
    ensures Tells(marks, n, StateAt(marks, n))
  {
    if n > 0 {
      var m, s := marks[n - 1], StateAt(marks, n - 1);
      StateTells(marks, n - 1);
      ShapeAt(marks, n - 1);
      if IsItem(m) {
        AttrAt(marks, n - 1);
        ItemTells(marks, n - 1, s);
      } else if m == Char('{') {
        OpeningTells(marks, n - 1, s);
      } else {
        OtherTells(marks, n - 1, s);
      }
    }
  }

  /** At a line's start. */
  lemma ContextTells(marks: seq<Mark>, n: nat)
    requires n < |marks| && marks[n].Head?
    ensures Context(StateAt(marks, n), marks[n].line) <==> InTestContext(marks, n)
  {
    var s := StateAt(marks, n);
    StateTells(marks, n);
    StateTells(marks, n + 1);
    ShapeAt(marks, n);
    TopIsInTest(marks, n, s);
    assert StateAt(marks, n + 1) == Header(s, marks[n].line);
  }

  // ---------------------------------------------------------------- from marks to lines

  lemma {:induction false} StateOfFront(marks: seq<Mark>, more: seq<Mark>, n: nat)
    requires n <= |marks|
    ensures StateAt(marks + more, n) == StateAt(marks, n)
  {
    if n > 0 { StateOfFront(marks, more, n - 1); }
  }

  lemma {:induction false} CharsPass(all: seq<Mark>, n: nat, line: Line, k: nat)
    requires k <= |line.code| && n + 1 + k <= |all| && all[n] == Head(line)
    requires forall i | 0 <= i < k :: all[n + 1 + i] == Char(line.code[i])
    ensures StateAt(all, n + 1 + k) == Braces(Header(StateAt(all, n), line), line.code[..k])
  {
    if k > 0 {
      CharsPass(all, n, line, k - 1);
      assert all[n + 1 + (k - 1)] == Char(line.code[k - 1]);
      assert line.code[..k][..k - 1] == line.code[..k - 1];
    }
  }

  lemma LinePasses(all: seq<Mark>, n: nat, line: Line)
    requires n + 2 + |line.code| == |all| && all[n] == Head(line) && all[|all| - 1] == End(line.endsWithSemicolon)
    requires forall i | 0 <= i < |line.code| :: all[n + 1 + i] == Char(line.code[i])
    ensures StateAt(all, |all|) == After(StateAt(all, n), line)
  {
    CharsPass(all, n, line, |line.code|);
    assert line.code[..|line.code|] == line.code;
  }

  lemma LineLaidOut(marks: seq<Mark>, line: Line, all: seq<Mark>)
    requires all == marks + LaidOut(line)
    ensures |all| == |marks| + 2 + |line.code| && all[|marks|] == Head(line)
    ensures all[|all| - 1] == End(line.endsWithSemicolon)
    ensures forall i | 0 <= i < |line.code| :: all[|marks| + 1 + i] == Char(line.code[i])
  {
    var laid := LaidOut(line);
    assert all[|all| - 1] == laid[|line.code| + 1];
    forall i | 0 <= i < |line.code| ensures all[|marks| + 1 + i] == Char(line.code[i]) {
      assert laid[1 + i] == Chars(line.code)[i];
    }
  }

  lemma OneMoreLine(marks: seq<Mark>, line: Line, all: seq<Mark>)
    requires all == marks + LaidOut(line)
    ensures StateAt(all, |all|) == After(StateAt(marks, |marks|), line)
  {
    StateOfFront(marks, LaidOut(line), |marks|);
    LineLaidOut(marks, line, all);
    LinePasses(all, |marks|, line);
  }

  /** The state after the marks is the scanner's state after the lines. */
  lemma {:induction false} LinesPass(lines: seq<Line>)
    ensures StateAt(Layout(lines), |Layout(lines)|) == AfterAll(START, lines)
  {
    if lines != [] {
      var front, line := lines[..|lines| - 1], lines[|lines| - 1];
      var marks := Layout(front);
      LinesPass(front);
      OneMoreLine(marks, line, marks + LaidOut(line));
    }
  }

  lemma {:induction false} LayoutOfFront(lines: seq<Line>, i: nat)
    requires i < |lines|
    ensures Layout(lines[..i]) + [Head(lines[i])] <= Layout(lines)
    decreases |lines|
  {
    var front := lines[..|lines| - 1];
    if i < |front| {
      LayoutOfFront(front, i);
      assert front[..i] == lines[..i];
    }
  }

  /** A line is in test context exactly when it starts inside a test block, or an item that is test code waits for its
      brace; and so by a test attribute or a `tests` module, and by nothing else. */
  lemma ContextIsTold(lines: seq<Line>, i: nat)
    requires i < |lines|
    ensures |Layout(lines[..i])| < |Layout(lines)|
    ensures ContextAt(START, lines, i) <==> InTestContext(Layout(lines), |Layout(lines[..i])|)
  {
    var marks, before := Layout(lines), Layout(lines[..i]);
    LayoutOfFront(lines, i);
    var rest := marks[|before|..];
    assert marks == before + rest && marks[|before|] == Head(lines[i]);
    LinesPass(lines[..i]);
    StateOfFront(before, rest, |before|);
    ContextTells(marks, |before|);
  }
}
