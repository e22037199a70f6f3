/** The lexer of the panic scanner: it blanks comments and literals line by line, carrying its state. */
module Lexer {
  import opened Json
  import opened Texts
  import opened LineBreaks

  /** Python's `str.isalpha` and `str.isalnum`. */
  datatype Alphabet = Alphabet(alpha: char -> bool, alnum: char -> bool)
  {
    ghost predicate Sane() { forall c | Separator(c) || c == '\'' :: !alpha(c) && !alnum(c) }

    predicate InName(c: char) { alnum(c) || c == '_' }
  }

  /** Where the scan is. `LineComment` never outlives its line. */
  datatype Mode =
    | Code
    | LineComment
    | BlockComment(depth: nat)
    | RawString(hashes: nat)
    | InString(escaped: bool)
    | InChar(escaped: bool)

  /** What the scan does next: consume `width` characters, go on in `mode`, and keep them or blank them. */
  datatype Action = Action(width: nat, mode: Mode, kept: bool)

  /** The length of the run of name characters at the front. */
  function Name(a: Alphabet, s: string): (n: nat)
    ensures n <= |s|
  {
    if s != "" && a.InName(s[0]) then 1 + Name(a, s[1..]) else 0
  }

  /** A quote and a name that no quote follows: a lifetime, not a literal. */
  predicate IsLifetime(a: Alphabet, s: string) {
    && |s| > 1 && s[0] == '\'' && (a.alpha(s[1]) || s[1] == '_')
    && var j := 2 + Name(a, s[2..]);
       !(j < |s| && s[j] == '\'')
  }

  /** The next action, on a text that may have many lines. */
  function Next(a: Alphabet, s: string, m: Mode): (r: Action)
    requires s != ""
    ensures 0 < r.width <= |s|
    ensures r.kept ==> r.width == 1
    ensures r.kept <==> Separator(s[0]) || (m == Code && r == Action(1, Code, true))
  {
    var c := s[0];
    if Separator(c) then Action(1, EndLine(m), true)
    else match m
      case LineComment => Action(1, LineComment, false)
      case BlockComment(depth) =>
        if StartsWith(s, '/', '*') then Action(2, BlockComment(depth + 1), false)
        else if StartsWith(s, '*', '/') then Action(2, if depth <= 1 then Code else BlockComment(depth - 1), false)
        else Action(1, m, false)
      case RawString(hashes) =>
        if c == '"' && Hashes(s[1..]) == hashes then Action(1 + hashes, Code, false) else Action(1, m, false)
      case InString(escaped) =>
        var next :=
          if escaped then InString(false) else if c == '\\' then InString(true) else if c == '"' then Code else m;
        Action(1, next, false)
      case InChar(escaped) =>
        var next :=
          if escaped then InChar(false) else if c == '\\' then InChar(true) else if c == '\'' then Code else m;
        Action(1, next, false)
      case Code =>
        if StartsWith(s, '/', '/') then Action(2, LineComment, false)
        else if StartsWith(s, '/', '*') then Action(2, BlockComment(1), false)
        else if OpensRaw(s) then Action(2 + Hashes(s[1..]), RawString(Hashes(s[1..])), false)
        else if c == '"' then Action(1, InString(false), false)
        else if c == '\'' then Action(1, if IsLifetime(a, s) then Code else InChar(false), false)
        else Action(1, Code, true)
  }

  /** Line comments and char literals do not reach past the end of a line. */
  function EndLine(m: Mode): Mode {
    if m.LineComment? || m.InChar? then Code else m
  }

  /** One pass over the whole text. */
  function Mask(a: Alphabet, s: string, m: Mode): (r: string)
    ensures |r| == |s|
    decreases |s|
  {
    if s == "" then ""
    else
      var n := Next(a, s, m);
      Emit(s, n) + Mask(a, s[n.width..], n.mode)
  }

  function Blank(n: nat): string { seq(n, _ => ' ') }

  function Emit(s: string, n: Action): string
    requires s != ""
  {
    if n.kept then [s[0]] else Blank(n.width)
  }

  function ModeAfter(a: Alphabet, s: string, m: Mode): Mode
    decreases |s|
  {
    if s == "" then m else var n := Next(a, s, m); ModeAfter(a, s[n.width..], n.mode)
  }

  // ---------------------------------------------------------------- looking ahead stops at the line's end

  lemma {:induction false} HashesStop(s: string, c: char, rest: string)
    requires Unbroken(s) && Separator(c)
    ensures Hashes(s + [c] + rest) == Hashes(s)
  {
    if s == "" {
      assert (s + [c] + rest)[0] == c;
    } else if s[0] == '#' {
      assert (s + [c] + rest)[1..] == s[1..] + [c] + rest;
      HashesStop(s[1..], c, rest);
    }
  }

  lemma {:induction false} NameStops(a: Alphabet, s: string, c: char, rest: string)
    requires Unbroken(s) && Separator(c) && a.Sane()
    ensures Name(a, s + [c] + rest) == Name(a, s)
  {
    if s == "" {
      assert (s + [c] + rest)[0] == c;
    } else if a.InName(s[0]) {
      assert (s + [c] + rest)[1..] == s[1..] + [c] + rest;
      NameStops(a, s[1..], c, rest);
    }
  }

  /** Within a line the next action does not depend on the lines below. */
  lemma NextIsLocal(a: Alphabet, s: string, c: char, rest: string, m: Mode)
    requires Unbroken(s) && s != "" && Separator(c) && a.Sane()
    ensures Next(a, s + [c] + rest, m) == Next(a, s, m)
  {
    var t := s + [c] + rest;
    assert t[0] == s[0];
    RawIsLocal(s, c, rest);
    LifetimeIsLocal(a, s, c, rest);
  }

  lemma RawIsLocal(s: string, c: char, rest: string)
    requires Unbroken(s) && s != "" && Separator(c)
    ensures var t := s + [c] + rest;
            && Hashes(t[1..]) == Hashes(s[1..]) && (OpensRaw(t) <==> OpensRaw(s))
            && forall x, y | !Separator(x) && !Separator(y) :: StartsWith(t, x, y) <==> StartsWith(s, x, y)
  {
    assert (s + [c] + rest)[1..] == s[1..] + [c] + rest;
    HashesStop(s[1..], c, rest);
  }

  lemma LifetimeIsLocal(a: Alphabet, s: string, c: char, rest: string)
    requires Unbroken(s) && s != "" && Separator(c) && a.Sane()
    ensures IsLifetime(a, s + [c] + rest) <==> IsLifetime(a, s)
  {
    if |s| > 1 {
      assert (s + [c] + rest)[2..] == s[2..] + [c] + rest;
      NameStops(a, s[2..], c, rest);
    }
  }

  /** One action of the scan, with everything that it decides. */
  lemma Unfold(a: Alphabet, s: string, m: Mode) returns (n: Action)
    requires s != ""
    ensures n == Next(a, s, m) && 0 < n.width <= |s| && (n.kept ==> n.width == 1)
    ensures Mask(a, s, m) == Emit(s, n) + Mask(a, s[n.width..], n.mode)
    ensures ModeAfter(a, s, m) == ModeAfter(a, s[n.width..], n.mode)
  {
    n := Next(a, s, m);
  }

  lemma DropJoined(s: string, c: char, rest: string, k: nat)
    requires k <= |s|
    ensures (s + [c] + rest)[k..] == s[k..] + [c] + rest
  {
  }

  lemma RegroupLine(x: string, y: string, c: char, z: string)
    ensures x + (y + [c] + z) == (x + y) + [c] + z
  {
  }

  /** Scanning past a line: its own mask, the separator, and the rest in the mode carried over. */
  lemma {:induction false} MaskByLine(a: Alphabet, s: string, c: char, rest: string, m: Mode)
    requires Unbroken(s) && Separator(c) && a.Sane()
    ensures Mask(a, s + [c] + rest, m) == Mask(a, s, m) + [c] + Mask(a, rest, EndLine(ModeAfter(a, s, m)))
    ensures ModeAfter(a, s + [c] + rest, m) == ModeAfter(a, rest, EndLine(ModeAfter(a, s, m)))
    decreases |s|
  {
    var t := s + [c] + rest;
    if s == "" {
      assert t[1..] == rest;
    } else {
      NextIsLocal(a, s, c, rest, m);
      var n := Unfold(a, s, m);
      var n' := Unfold(a, t, m);
      DropJoined(s, c, rest, n.width);
      MaskByLine(a, s[n.width..], c, rest, n.mode);
      RegroupLine(Emit(s, n), Mask(a, s[n.width..], n.mode), c, Mask(a, rest, EndLine(ModeAfter(a, s, m))));
    }
  }

  // ---------------------------------------------------------------- the lexer object

  class LexerState {
    var blockCommentDepth: nat
    var inString: bool
    var stringEscape: bool
    var inChar: bool
    var charEscape: bool
    var rawStringHashes: Option<nat>

    constructor ()
      ensures Valid() && Mode() == Code
    {
      blockCommentDepth, inString, stringEscape := 0, false, false;
      inChar, charEscape, rawStringHashes := false, false, None;
    }

    /** At most one of the modes is on, and an escape is pending only in its own. */
    ghost predicate Valid()
      reads this
    {
      && (blockCommentDepth > 0 ==> rawStringHashes.None? && !inString && !inChar)
      && (rawStringHashes.Some? ==> !inString && !inChar)
      && (inString ==> !inChar)
      && (stringEscape ==> inString)
      && (charEscape ==> inChar)
    }

    ghost function Mode(): Mode
      reads this
    {
      if blockCommentDepth > 0 then BlockComment(blockCommentDepth)
      else if rawStringHashes.Some? then RawString(rawStringHashes.value)
      else if inString then InString(stringEscape)
      else if inChar then InChar(charEscape)
      else Code
    }

    /** The part of one turn of the loop that is in code: a new scan index, with `out` written where a
        character is kept, or the end of the line for a line comment. */
    method ScanCode(a: Alphabet, line: string, out: array<char>, i: nat) returns (next: nat)
      requires Valid() && Mode() == Code && Unbroken(line) && out.Length == |line| && i < |line|
      requires !StartsWith(line[i..], '/', '/')
      modifies this, out
      ensures Valid()
      ensures next == i + Next(a, line[i..], Code).width && Mode() == Next(a, line[i..], Code).mode
      ensures out[..] == if Next(a, line[i..], Code).kept then old(out[..])[i := line[i]] else old(out[..])
    {
      var rest := line[i..];
      var ch := line[i];
      if StartsWith(rest, '/', '*') {
        blockCommentDepth := blockCommentDepth + 1;
        return i + 2;
      }
      if ch == 'r' {
        var j := EndOfHashes(line, i + 1);
        assert rest[1..] == line[i + 1..];
        if j < |line| && line[j] == '"' {
          rawStringHashes := Some(j - i - 1);
          return j + 1;
        }
      }
      if ch == '"' {
        inString := true;
      } else if ch == '\'' {
        if i + 1 < |line| && (a.alpha(line[i + 1]) || line[i + 1] == '_') {
          var j := EndOfName(a, line, i + 2);
          assert rest[2..] == line[i + 2..];
          if j < |line| && line[j] == '\'' { inChar := true; }
        } else {
          inChar := true;
        }
      } else {
        out[i] := ch;
      }
      next := i + 1;
    }

    /** The part of one turn that is inside a comment or a literal. */
    method ScanInside(a: Alphabet, line: string, i: nat) returns (next: nat)
      requires Valid() && Mode() != Code && Unbroken(line) && i < |line|
      modifies this
      ensures Valid()
      ensures next == i + Next(a, line[i..], old(Mode())).width && Mode() == Next(a, line[i..], old(Mode())).mode
      ensures !Next(a, line[i..], old(Mode())).kept
    {
      var ch, rest := line[i], line[i..];
      next := i + 1;
      if blockCommentDepth > 0 {
        if StartsWith(rest, '/', '*') {
          blockCommentDepth := blockCommentDepth + 1;
          next := i + 2;
        } else if StartsWith(rest, '*', '/') {
          blockCommentDepth := blockCommentDepth - 1;
          next := i + 2;
        }
      } else if rawStringHashes.Some? {
        if ch == '"' {
          var j := EndOfHashes(line, i + 1);
          assert rest[1..] == line[i + 1..];
          if j - i - 1 == rawStringHashes.value {
            rawStringHashes := None;
            next := j;
          }
        }
      } else if inString {
        if stringEscape { stringEscape := false; }
        else if ch == '\\' { stringEscape := true; }
        else if ch == '"' { inString := false; }
      } else {
        if charEscape { charEscape := false; }
        else if ch == '\\' { charEscape := true; }
        else if ch == '\'' { inChar := false; }
      }
    }

    /** One turn of the loop outside a line comment. */
    method ScanOne(a: Alphabet, line: string, out: array<char>, i: nat) returns (next: nat)
      requires Valid() && Unbroken(line) && out.Length == |line| && i < |line|
      requires !(Mode() == Code && StartsWith(line[i..], '/', '/'))
      modifies this, out
      ensures Valid()
      ensures next == i + Next(a, line[i..], old(Mode())).width && Mode() == Next(a, line[i..], old(Mode())).mode
      ensures out[..] == if Next(a, line[i..], old(Mode())).kept then old(out[..])[i := line[i]] else old(out[..])
    {
      if blockCommentDepth > 0 || rawStringHashes.Some? || inString || inChar {
        next := ScanInside(a, line, i);
      } else {
        next := ScanCode(a, line, out, i);
      }
    }

    method Turn(a: Alphabet, line: string, out: array<char>, i: nat, ghost start: Mode) returns (next: nat)
      requires Valid() && Unbroken(line) && out.Length == |line| && i < |line|
      requires !(Mode() == Code && StartsWith(line[i..], '/', '/'))
      requires UpTo(a, line, start, out[..], i, Mode())
      modifies this, out
      ensures Valid() && i < next <= |line|
      ensures UpTo(a, line, start, out[..], next, Mode())
    {
      ghost var m, was := Mode(), out[..];
      next := ScanOne(a, line, out, i);
      Resume(a, line, start, i, m, Next(a, line[i..], m), was, next, out[..]);
      assert Mode() == Next(a, line[i..], m).mode;
    }

    method SanitizeLine(a: Alphabet, line: string) returns (sanitized: string)
      requires Valid() && Unbroken(line)
      modifies this
      ensures Valid() && !inChar
      ensures sanitized == Mask(a, line, old(Mode()))
      ensures Mode() == EndLine(ModeAfter(a, line, old(Mode())))
    {
      var out := new char[|line|](_ => ' ');
      var i := 0;
      ghost var start := Mode();
      while i < |line|
        invariant 0 <= i <= |line| && Valid() && UpTo(a, line, start, out[..], i, Mode())
      {
        if blockCommentDepth == 0 && rawStringHashes.None? && !inString && !inChar && StartsWith(line[i..], '/', '/') {
          break;
        }
        i := Turn(a, line, out, i, start);
      }
      Finish(a, line, start, out[..], i, Mode());
      if inChar {
        inChar := false;
        charEscape := false;
      }
      sanitized := out[..];
    }
  }

  /** The output is right before `i` and blank from there, and the scan is in mode `m`. */
  ghost predicate UpTo(a: Alphabet, line: string, start: Mode, out: string, i: nat, m: Mode) {
    && i <= |line| == |out|
    && Mask(a, line, start) == out[..i] + Mask(a, line[i..], m)
    && ModeAfter(a, line, start) == ModeAfter(a, line[i..], m)
    && out[i..] == Blank(|line| - i)
  }

  /** At the end of the line, or at a line comment, the output is right. */
  lemma Finish(a: Alphabet, line: string, start: Mode, out: string, i: nat, m: Mode)
    requires Unbroken(line) && UpTo(a, line, start, out, i, m)
    requires i == |line| || (m == Code && StartsWith(line[i..], '/', '/'))
    ensures out == Mask(a, line, start) && EndLine(m) == EndLine(ModeAfter(a, line, start))
  {
    assert out == out[..i] + out[i..];
    if i < |line| { CommentToEnd(a, line[i..]); }
  }

  method EndOfName(a: Alphabet, line: string, i: nat) returns (j: nat)
    requires i <= |line|
    ensures j == i + Name(a, line[i..])
  {
    j := i;
    while j < |line| && a.InName(line[j])
      invariant i <= j <= |line| && i + Name(a, line[i..]) == j + Name(a, line[j..])
    {
      assert line[j..][1..] == line[j + 1..];
      j := j + 1;
    }
  }

  /** One action, applied to an output that is blank from `i` on, leaves it right up to the new index. */
  lemma Emitted(line: string, i: nat, n: Action, was: string, out: string)
    requires i < |line| && |was| == |line| && was[i..] == Blank(|line| - i)
    requires 0 < n.width <= |line| - i && (n.kept ==> n.width == 1)
    requires out == if n.kept then was[i := line[i]] else was
    ensures out[..i + n.width] == was[..i] + Emit(line[i..], n)
    ensures out[i + n.width..] == Blank(|line| - i - n.width)
  {
    assert forall k | i <= k < |line| :: was[k] == was[i..][k - i];
  }

  lemma ResumeText(line: string, i: nat, n: Action, was: string, next: nat, out: string, masked: string, tail: string,
                   tail': string)
    requires i < next <= |line| && |was| == |line| && was[i..] == Blank(|line| - i) && masked == was[..i] + tail
    requires next == i + n.width && (n.kept ==> n.width == 1) && tail == Emit(line[i..], n) + tail'
    requires out == if n.kept then was[i := line[i]] else was
    ensures masked == out[..next] + tail' && out[next..] == Blank(|line| - next)
  {
    Emitted(line, i, n, was, out);
    Regroup(was[..i], Emit(line[i..], n), tail');
  }

  lemma UnfoldAt(a: Alphabet, line: string, i: nat, m: Mode, n: Action, next: nat)
    requires i < |line| && n == Next(a, line[i..], m) && next == i + n.width
    ensures i < next <= |line| && (n.kept ==> n.width == 1)
    ensures Mask(a, line[i..], m) == Emit(line[i..], n) + Mask(a, line[next..], n.mode)
    ensures ModeAfter(a, line[i..], m) == ModeAfter(a, line[next..], n.mode)
  {
    var n' := Unfold(a, line[i..], m);
    assert line[i..][n.width..] == line[next..];
  }

  lemma Resume(a: Alphabet, line: string, start: Mode, i: nat, m: Mode, n: Action, was: string, next: nat, out: string)
    requires Unbroken(line) && i < |line| && UpTo(a, line, start, was, i, m)
    requires n == Next(a, line[i..], m) && next == i + n.width
    requires out == if n.kept then was[i := line[i]] else was
    ensures i < next <= |line| && UpTo(a, line, start, out, next, n.mode)
  {
    UnfoldAt(a, line, i, m, n, next);
    ResumeText(line, i, n, was, next, out, Mask(a, line, start), Mask(a, line[i..], m), Mask(a, line[next..], n.mode));
  }

  lemma {:induction false} CommentBlanks(a: Alphabet, s: string)
    requires Unbroken(s)
    ensures Mask(a, s, LineComment) == Blank(|s|) && ModeAfter(a, s, LineComment) == LineComment
    decreases |s|
  {
    if s != "" {
      CommentBlanks(a, s[1..]);
      assert Blank(1) + Blank(|s| - 1) == Blank(|s|);
    }
  }

  /** A line comment blanks the rest of its line. */
  lemma CommentToEnd(a: Alphabet, s: string)
    requires Unbroken(s) && StartsWith(s, '/', '/')
    ensures Mask(a, s, Code) == Blank(|s|) && EndLine(ModeAfter(a, s, Code)) == Code
  {
    CommentBlanks(a, s[2..]);
    assert Blank(2) + Blank(|s| - 2) == Blank(|s|);
  }

  // ---------------------------------------------------------------- a whole file

  function JoinLines(lines: seq<string>): string
    requires lines != []
  {
    if |lines| == 1 then lines[0] else lines[0] + "\n" + JoinLines(lines[1..])
  }

  /** The sanitized lines, with the mode carried from each to the next. */
  function Masks(a: Alphabet, lines: seq<string>, m: Mode): (r: seq<string>)
    ensures |r| == |lines|
  {
    if lines == [] then []
    else [Mask(a, lines[0], m)] + Masks(a, lines[1..], EndLine(ModeAfter(a, lines[0], m)))
  }

  function ModeAfterLines(a: Alphabet, lines: seq<string>, m: Mode): Mode {
    if lines == [] then m else ModeAfterLines(a, lines[1..], EndLine(ModeAfter(a, lines[0], m)))
  }

  lemma {:induction false} MasksSnoc(a: Alphabet, lines: seq<string>, line: string, m: Mode)
    ensures Masks(a, lines + [line], m) == Masks(a, lines, m) + [Mask(a, line, ModeAfterLines(a, lines, m))]
    ensures ModeAfterLines(a, lines + [line], m) == EndLine(ModeAfter(a, line, ModeAfterLines(a, lines, m)))
  {
    if lines == [] {
      assert [line][1..] == [] && lines + [line] == [line];
    } else {
      assert (lines + [line])[1..] == lines[1..] + [line];
      MasksSnoc(a, lines[1..], line, EndLine(ModeAfter(a, lines[0], m)));
    }
  }

  /** Sanitizing a file line by line with one lexer. */
  method SanitizeLines(a: Alphabet, lines: seq<string>) returns (sanitized: seq<string>)
    requires forall i | 0 <= i < |lines| :: Unbroken(lines[i])
    ensures sanitized == Masks(a, lines, Code)
  {
    var lexer := new LexerState();
    sanitized := [];
    for i := 0 to |lines|
      invariant fresh(lexer) && lexer.Valid()
      invariant sanitized == Masks(a, lines[..i], Code)
      invariant lexer.Mode() == ModeAfterLines(a, lines[..i], Code)
    {
      MasksSnoc(a, lines[..i], lines[i], Code);
      assert lines[..i + 1] == lines[..i] + [lines[i]];
      var code := lexer.SanitizeLine(a, lines[i]);
      sanitized := sanitized + [code];
    }
    assert lines[..|lines|] == lines;
  }

  /** Line by line with the carried state is the same as one pass over the lines joined. */
  lemma {:induction false} LinesAreOnePass(a: Alphabet, lines: seq<string>, m: Mode)
    requires a.Sane() && lines != [] && forall i | 0 <= i < |lines| :: Unbroken(lines[i])
    ensures JoinLines(Masks(a, lines, m)) == Mask(a, JoinLines(lines), m)
  {
    var rest := Masks(a, lines[1..], EndLine(ModeAfter(a, lines[0], m)));
    assert Masks(a, lines, m)[1..] == rest;
    if |lines| > 1 {
      LinesAreOnePass(a, lines[1..], EndLine(ModeAfter(a, lines[0], m)));
      MaskByLine(a, lines[0], '\n', JoinLines(lines[1..]), m);
    }
  }

  lemma MaskOfLine(a: Alphabet, s: string, m: Mode)
    requires Unbroken(s)
    ensures Unbroken(Mask(a, s, m))
  {
    forall i | 0 <= i < |s| ensures !Separator(Mask(a, s, m)[i]) {
      MaskKeepsCodeOnly(a, s, m, i);
      assert Seen(a, s, m, i).1 == Mask(a, s, m)[i];
    }
  }

  lemma MaskOfBreak(a: Alphabet, s: string, m: Mode)
    requires s != "" && Separator(s[0])
    ensures Mask(a, s, m) == [s[0]] + Mask(a, s[1..], EndLine(m))
  {
  }

  /** What is skipped after a carriage return is skipped in the mask. */
  lemma MaskSkips(a: Alphabet, c: char, rest: string, skip: nat, m: Mode)
    requires skip == if c == '\r' && rest != "" && rest[0] == '\n' then 1 else 0
    requires EndLine(m) == m
    ensures var masked := Mask(a, rest, m);
            && skip == (if c == '\r' && masked != "" && masked[0] == '\n' then 1 else 0)
            && masked[skip..] == Mask(a, rest[skip..], m)
  {
    if rest != "" { FirstStays(a, rest, m); }
    if skip == 1 {
      MaskOfBreak(a, rest, m);
    } else {
      assert rest[0..] == rest && Mask(a, rest, m)[0..] == Mask(a, rest, m);
    }
  }

  /** One line of a file, given the lines after it. */
  lemma LineOfFile(a: Alphabet, line: string, c: char, rest: string, skip: nat, m: Mode, m': Mode)
    requires a.Sane() && Unbroken(line) && Separator(c) && m' == EndLine(ModeAfter(a, line, m))
    requires skip == if c == '\r' && rest != "" && rest[0] == '\n' then 1 else 0
    requires SplitLines(Mask(a, rest[skip..], m')) == Masks(a, SplitLines(rest[skip..]), m')
    ensures SplitLines(Mask(a, line + [c] + rest, m)) == Masks(a, SplitLines(line + [c] + rest), m)
  {
    MaskOfLine(a, line, m);
    MaskByLine(a, line, c, rest, m);
    SplitLinesFirst(line, c, rest);
    SplitLinesFirst(Mask(a, line, m), c, Mask(a, rest, m'));
    MaskSkips(a, c, rest, skip, m');
    MasksCons(a, line, SplitLines(rest[skip..]), m);
  }

  lemma MasksCons(a: Alphabet, line: string, lines: seq<string>, m: Mode)
    ensures Masks(a, [line] + lines, m) == [Mask(a, line, m)] + Masks(a, lines, EndLine(ModeAfter(a, line, m)))
  {
    assert ([line] + lines)[1..] == lines;
  }

  lemma LastLineOfFile(a: Alphabet, line: string, m: Mode)
    requires Unbroken(line)
    ensures SplitLines(Mask(a, line, m)) == Masks(a, SplitLines(line), m)
  {
    MaskOfLine(a, line, m);
    LineEndOfUnbroken(line);
    LineEndOfUnbroken(Mask(a, line, m));
    assert line[..|line|] == line && Mask(a, line, m)[..|line|] == Mask(a, line, m);
    if line != "" { MasksCons(a, line, [], m); }
  }

  /** The lines of a file, sanitized one by one, are the lines of one pass over the file, wherever and by
      whatever characters the lines end. */
  lemma {:induction false} FileIsOnePass(a: Alphabet, s: string, m: Mode)
    requires a.Sane()
    ensures SplitLines(Mask(a, s, m)) == Masks(a, SplitLines(s), m)
    decreases |s|
  {
    var n := LineEnd(s);
    var line := s[..n];
    if n == |s| {
      assert line == s;
      LastLineOfFile(a, s, m);
    } else {
      var c, rest, m' := s[n], s[n + 1..], EndLine(ModeAfter(a, line, m));
      var skip := if c == '\r' && rest != "" && rest[0] == '\n' then 1 else 0;
      assert s == line + [c] + rest;
      FileIsOnePass(a, rest[skip..], m');
      LineOfFile(a, line, c, rest, skip, m, m');
    }
  }

  lemma FirstStays(a: Alphabet, s: string, m: Mode)
    requires s != ""
    ensures Mask(a, s, m)[0] == '\n' <==> s[0] == '\n'
  {
    MaskKeepsCodeOnly(a, s, m, 0);
    assert Seen(a, s, m, 0) == (s[0], Mask(a, s, m)[0], Some(m));
  }

  /** Sanitizing a file, as the scanner reads it. */
  method SanitizeFile(a: Alphabet, text: string) returns (sanitized: seq<string>)
    requires a.Sane()
    ensures sanitized == SplitLines(Mask(a, text, Code))
  {
    sanitized := SanitizeLines(a, SplitLines(text));
    FileIsOnePass(a, text, Code);
  }

  /** The mode in which the scan reaches index `i`; `None` when `i` is passed over inside an action. */
  function ModeAt(a: Alphabet, s: string, m: Mode, i: nat): Option<Mode>
    requires i <= |s|
    decreases |s|
  {
    if i == 0 then Some(m)
    else var n := Next(a, s, m); if i < n.width then None else ModeAt(a, s[n.width..], n.mode, i - n.width)
  }

  /** An action never takes in a separator together with something else. */
  lemma NextSpansNoBreak(a: Alphabet, s: string, m: Mode, k: nat)
    requires s != "" && 0 < k < Next(a, s, m).width
    ensures !Separator(s[k])
  {
    assert forall i | 0 <= i < Hashes(s[1..]) :: s[1..][i] == '#' && s[1 + i] == '#';
  }

  /** What a text has at index `i`, what the mask has there, and the mode it is reached in. */
  function Seen(a: Alphabet, s: string, m: Mode, i: nat): (char, char, Option<Mode>)
    requires i < |s|
  {
    (s[i], Mask(a, s, m)[i], ModeAt(a, s, m, i))
  }

  predicate KeepsCodeOnly(seen: (char, char, Option<Mode>)) {
    && (seen.1 == seen.0 || seen.1 == ' ')
    && (Separator(seen.0) ==> seen.1 == seen.0)
    && (seen.1 != ' ' && !Separator(seen.0) ==> seen.2 == Some(Code))
  }

  lemma WithinAction(a: Alphabet, s: string, m: Mode, i: nat)
    requires i < |s| && i < Next(a, s, m).width
    ensures KeepsCodeOnly(Seen(a, s, m, i))
  {
    var n := Unfold(a, s, m);
    EmitAt(s, n, Mask(a, s[n.width..], n.mode), i);
    if i > 0 { NextSpansNoBreak(a, s, m, i); }
  }

  lemma SeenLater(a: Alphabet, s: string, m: Mode, i: nat, n: Action, rest: string)
    requires i < |s| && n == Next(a, s, m) && n.width <= i && rest == s[n.width..]
    ensures Seen(a, s, m, i) == Seen(a, rest, n.mode, i - n.width)
  {
    MaskLater(a, s, m, i, n, rest);
    ModeLater(a, s, m, i, n, rest);
  }

  lemma MaskLater(a: Alphabet, s: string, m: Mode, i: nat, n: Action, rest: string)
    requires i < |s| && n == Next(a, s, m) && n.width <= i && rest == s[n.width..]
    ensures s[i] == rest[i - n.width] && Mask(a, s, m)[i] == Mask(a, rest, n.mode)[i - n.width]
  {
    EmitAt(s, n, Mask(a, rest, n.mode), i);
  }

  lemma ModeLater(a: Alphabet, s: string, m: Mode, i: nat, n: Action, rest: string)
    requires s != "" && i <= |s| && n == Next(a, s, m) && n.width <= i && rest == s[n.width..]
    ensures ModeAt(a, s, m, i) == ModeAt(a, rest, n.mode, i - n.width)
  {
  }

  /** Induction over the actions of the pass. */
  lemma {:induction false} Everywhere(a: Alphabet, holds: (string, Mode, nat) -> bool, s: string, m: Mode, i: nat)
    requires i < |s|
    requires forall s, m, i: nat | i < |s| && i < Next(a, s, m).width :: holds(s, m, i)
    requires forall s, m, i: nat | i < |s| && Next(a, s, m).width <= i ::
      holds(s[Next(a, s, m).width..], Next(a, s, m).mode, i - Next(a, s, m).width) ==> holds(s, m, i)
    ensures holds(s, m, i)
    decreases |s|
  {
    var n := Next(a, s, m);
    if n.width <= i { Everywhere(a, holds, s[n.width..], n.mode, i - n.width); }
  }

  /** Each character of the mask is the input's or a space; separators stay; anything else that stays is
      reached in code, so nothing of a comment or a literal is left. */
  lemma MaskKeepsCodeOnly(a: Alphabet, s: string, m: Mode, i: nat)
    requires i < |s|
    ensures KeepsCodeOnly(Seen(a, s, m, i))
  {
    forall s, m, i: nat | i < |s| && i < Next(a, s, m).width ensures CodeOnlyAt(a, s, m, i) {
      WithinAction(a, s, m, i);
    }
    forall s, m, i: nat | i < |s| && Next(a, s, m).width <= i
      ensures CodeOnlyAt(a, s[Next(a, s, m).width..], Next(a, s, m).mode, i - Next(a, s, m).width) ==>
              CodeOnlyAt(a, s, m, i)
    {
      if CodeOnlyAt(a, s[Next(a, s, m).width..], Next(a, s, m).mode, i - Next(a, s, m).width) {
        CodeOnlyLater(a, s, m, i);
      }
    }
    Everywhere(a, (s: string, m: Mode, i: nat) => CodeOnlyAt(a, s, m, i), s, m, i);
  }

  ghost predicate CodeOnlyAt(a: Alphabet, s: string, m: Mode, i: nat) { i < |s| && KeepsCodeOnly(Seen(a, s, m, i)) }

  lemma CodeOnlyLater(a: Alphabet, s: string, m: Mode, i: nat)
    requires i < |s| && Next(a, s, m).width <= i
    requires CodeOnlyAt(a, s[Next(a, s, m).width..], Next(a, s, m).mode, i - Next(a, s, m).width)
    ensures CodeOnlyAt(a, s, m, i)
  {
    SeenLater(a, s, m, i, Next(a, s, m), s[Next(a, s, m).width..]);
  }

  lemma EmitAt(s: string, n: Action, tail: string, i: nat)
    requires s != "" && 0 < n.width && (n.kept ==> n.width == 1) && i < n.width + |tail|
    ensures (Emit(s, n) + tail)[i] == if i >= n.width then tail[i - n.width] else if n.kept then s[i] else ' '
  {
  }
}
