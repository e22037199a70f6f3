/** Line numbers as Python's `str.splitlines` counts them. */
module LineBreaks {

  predicate Separator(c: char) {
    || c == '\n' || c == '\r' || c == '\U{0B}' || c == '\U{0C}' || c == '\U{1C}' || c == '\U{1D}' || c == '\U{1E}'
    || c == '\U{85}' || c == '\U{2028}' || c == '\U{2029}'
  }

  /** Line feed, vertical tab, form feed, carriage return, the file, group and record separators, next line, and the
      line and paragraph separators of Unicode; no other character. */
  lemma SeparatorsByCode(c: char)
    ensures Separator(c) <==> 10 <= c as int <= 13 || 28 <= c as int <= 30 || c as int in {133, 8232, 8233}
  {
  }

  /** A line ends with the character at `i`; a carriage return and a newline end it together. */
  predicate BreaksAt(s: string, i: nat)
    requires i < |s|
  {
    Separator(s[i]) && !(s[i] == '\r' && i + 1 < |s| && s[i + 1] == '\n')
  }

  /** The number of lines that end before index `n`: one less than the number of the line that `n` is on. */
  function Breaks(s: string, n: nat): nat
    requires n <= |s|
  {
    if n == 0 then 0 else Breaks(s, n - 1) + if BreaksAt(s, n - 1) then 1 else 0
  }

  /** Texts of one length, of which the first has no line break that the second has not. */
  ghost predicate BreaksWithin(a: string, b: string) {
    |a| == |b| && forall i | 0 <= i < |a| && BreaksAt(a, i) :: BreaksAt(b, i)
  }

  /** Then the lines are as many exactly when none is lost. */
  lemma {:induction false} FewerBreaks(a: string, b: string, n: nat)
    requires BreaksWithin(a, b) && n <= |a|
    ensures Breaks(a, n) <= Breaks(b, n)
    ensures Breaks(a, n) == Breaks(b, n) <==> forall i | 0 <= i < n && BreaksAt(b, i) :: BreaksAt(a, i)
  {
    if n > 0 { FewerBreaks(a, b, n - 1); }
  }

  /** And then, and only then, every position is on the line it was on. */
  lemma SameLineNumbers(a: string, b: string)
    requires BreaksWithin(a, b)
    ensures (forall n | 0 <= n <= |a| :: Breaks(a, n) == Breaks(b, n)) <==>
            (forall i | 0 <= i < |a| && BreaksAt(b, i) :: BreaksAt(a, i))
  {
    FewerBreaks(a, b, |a|);
    if Breaks(a, |a|) == Breaks(b, |a|) {
      forall n | 0 <= n <= |a| ensures Breaks(a, n) == Breaks(b, n) { FewerBreaks(a, b, n); }
    }
  }

  /** The number of newlines before index `n`. */
  function Newlines(s: string, n: nat): nat
    requires n <= |s|
  {
    if n == 0 then 0 else Newlines(s, n - 1) + if s[n - 1] == '\n' then 1 else 0
  }

  /** When every newline of one text is a line break of the other, counting newlines gives the other's line numbers
      exactly up to its first line break that is no newline of the first. */
  lemma {:induction false} NewlinesAreBreaks(a: string, b: string, n: nat)
    requires |a| == |b| && n <= |a| && forall i | 0 <= i < |a| && a[i] == '\n' :: BreaksAt(b, i)
    ensures Newlines(a, n) <= Breaks(b, n)
    ensures Newlines(a, n) == Breaks(b, n) <==> forall i | 0 <= i < n && BreaksAt(b, i) :: a[i] == '\n'
  {
    if n > 0 { NewlinesAreBreaks(a, b, n - 1); }
  }

  /** So in one text, exactly up to the first line break that is not a newline. */
  lemma NewlinesNumberLines(s: string, n: nat)
    requires n <= |s|
    ensures Newlines(s, n) == Breaks(s, n) <==> forall i | 0 <= i < n && BreaksAt(s, i) :: s[i] == '\n'
  {
    NewlinesAreBreaks(s, s, n);
  }

  // ---------------------------------------------------------------- the lines themselves

  predicate Unbroken(s: string) { forall i | 0 <= i < |s| :: !Separator(s[i]) }

  /** Where the first line ends. */
  function LineEnd(s: string): (n: nat)
    ensures n <= |s| && Unbroken(s[..n]) && (n < |s| ==> Separator(s[n]))
  {
    if s == "" || Separator(s[0]) then 0
    else
      assert forall i | 0 < i < 1 + LineEnd(s[1..]) :: s[i] == s[1..][i - 1];
      1 + LineEnd(s[1..])
  }

  /** The length of the line break at the front. */
  function BreakLength(s: string): nat
    requires s != ""
  {
    if s[0] == '\r' && |s| > 1 && s[1] == '\n' then 2 else 1
  }

  /** `str.splitlines`. */
  function SplitLines(s: string): (lines: seq<string>)
    ensures forall i | 0 <= i < |lines| :: Unbroken(lines[i])
    decreases |s|
  {
    if s == "" then []
    else
      var n := LineEnd(s);
      if n == |s| then [s[..n]] else [s[..n]] + SplitLines(s[n + BreakLength(s[n..])..])
  }

  lemma {:induction false} LineEndAt(line: string, c: char, rest: string)
    requires Unbroken(line) && Separator(c)
    ensures LineEnd(line + [c] + rest) == |line|
  {
    var s := line + [c] + rest;
    if line != "" {
      assert s[1..] == line[1..] + [c] + rest;
      LineEndAt(line[1..], c, rest);
      assert s[0] == line[0];
    }
  }

  lemma SplitLinesAt(s: string, n: nat, rest: string)
    requires n == LineEnd(s) < |s| && rest == s[n + BreakLength(s[n..])..]
    ensures SplitLines(s) == [s[..n]] + SplitLines(rest)
  {
  }

  lemma SplitLinesOf(s: string, line: string, tail: string, rest: string, k: nat)
    requires s == line + tail && LineEnd(s) == |line| && tail != "" && k == BreakLength(tail) && k <= |tail|
    requires rest == tail[k..]
    ensures SplitLines(s) == [line] + SplitLines(rest)
  {
    assert s[..|line|] == line && s[|line|..] == tail && s[|line| + k..] == rest;
    SplitLinesAt(s, |line|, rest);
  }

  lemma BreakIs(c: char, rest: string, skip: nat)
    requires skip == if c == '\r' && rest != "" && rest[0] == '\n' then 1 else 0
    ensures BreakLength([c] + rest) == 1 + skip && ([c] + rest)[1 + skip..] == rest[skip..]
  {
  }

  lemma FirstOf(line: string, c: char, rest: string, skip: nat, s: string, after: string)
    requires Unbroken(line) && Separator(c) && s == line + [c] + rest
    requires skip == (if c == '\r' && rest != "" && rest[0] == '\n' then 1 else 0) && after == rest[skip..]
    ensures SplitLines(s) == [line] + SplitLines(after)
  {
    LineEndAt(line, c, rest);
    BreakIs(c, rest, skip);
    assert s == line + ([c] + rest);
    SplitLinesOf(s, line, [c] + rest, after, 1 + skip);
  }

  /** The first line of a text, its break, and the lines after it. */
  lemma SplitLinesFirst(line: string, c: char, rest: string)
    requires Unbroken(line) && Separator(c)
    ensures var skip := if c == '\r' && rest != "" && rest[0] == '\n' then 1 else 0;
            SplitLines(line + [c] + rest) == [line] + SplitLines(rest[skip..])
  {
    var skip := if c == '\r' && rest != "" && rest[0] == '\n' then 1 else 0;
    FirstOf(line, c, rest, skip, line + [c] + rest, rest[skip..]);
  }

  lemma {:induction false} LineEndOfUnbroken(s: string)
    requires Unbroken(s)
    ensures LineEnd(s) == |s|
  {
    if s != "" { LineEndOfUnbroken(s[1..]); }
  }

  /** Reading a file as text: every kind of line end that has a carriage return becomes a newline. */
  function Universal(s: string): string
    decreases |s|
  {
    if s == "" then ""
    else if s[0] == '\r' then "\n" + Universal(s[BreakLength(s)..])
    else [s[0]] + Universal(s[1..])
  }

  lemma {:induction false} UniversalLine(line: string, rest: string)
    requires Unbroken(line)
    ensures Universal(line + rest) == line + Universal(rest)
  {
    if line == "" {
      assert line + rest == rest;
    } else {
      assert (line + rest)[1..] == line[1..] + rest;
      UniversalLine(line[1..], rest);
    }
  }

  /** That changes no line. */
  lemma {:induction false} UniversalKeepsLines(s: string)
    ensures SplitLines(Universal(s)) == SplitLines(s)
    decreases |s|
  {
    var n := LineEnd(s);
    if n == |s| {
      UniversalLine(s, "");
      assert s[..n] == s && s + "" == s;
    } else {
      var rest := s[n + BreakLength(s[n..])..];
      var c := if s[n] == '\r' then '\n' else s[n];
      UniversalFirst(s, n, rest, c);
      SplitLinesFirst(s[..n], c, Universal(rest));
      assert Universal(rest)[0..] == Universal(rest);
      UniversalKeepsLines(rest);
    }
  }

  lemma UniversalFirst(s: string, n: nat, rest: string, c: char)
    requires n == LineEnd(s) < |s| && rest == s[n + BreakLength(s[n..])..] && c == if s[n] == '\r' then '\n' else s[n]
    ensures Universal(s) == s[..n] + [c] + Universal(rest)
  {
    var t := s[n..];
    assert s == s[..n] + t && t[BreakLength(t)..] == rest;
    UniversalLine(s[..n], t);
    UniversalBreak(t, c, rest);
    JoinThree(s[..n], c, Universal(rest));
  }

  lemma UniversalBreak(t: string, c: char, rest: string)
    requires t != "" && Separator(t[0]) && rest == t[BreakLength(t)..] && c == if t[0] == '\r' then '\n' else t[0]
    ensures Universal(t) == [c] + Universal(rest)
  {
  }

  lemma JoinThree(x: string, c: char, y: string)
    ensures x + ([c] + y) == x + [c] + y
  {
  }
}
