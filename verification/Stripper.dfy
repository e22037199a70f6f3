/** The gateway scanner's pass over a whole file: comments and literals become spaces, newlines stay. */
module Stripper {
  import opened Json
  import opened Texts
  import opened LineBreaks

  datatype Mode =
    | Code
    | LineComment
    | BlockComment(depth: nat)
    | RawString(hashes: nat)
    | InString(escaped: bool)
    | InChar(escaped: bool)

  /** What becomes of the characters consumed: kept, blanked but for newlines and tabs, or blanked. */
  datatype Fate = Keep | Soften | Blank

  datatype Action = Action(width: nat, mode: Mode, fate: Fate)

  /** The apostrophe of a char literal: another one follows within the next five characters. */
  predicate OpensChar(s: string) {
    s != "" && s[0] == '\'' && exists k | 1 <= k <= 5 && k < |s| :: s[k] == '\''
  }

  /** What the loop does at the front of the text that is left. */
  function Next(s: string, m: Mode): (r: Action)
    requires s != ""
    ensures 0 < r.width <= |s|
  {
    var c := s[0];
    match m
    case LineComment => if c == '\n' then Action(1, Code, Keep) else Action(1, m, Soften)
    case BlockComment(depth) =>
      if StartsWith(s, '/', '*') then Action(2, BlockComment(depth + 1), Blank)
      else if StartsWith(s, '*', '/') then Action(2, if depth <= 1 then Code else BlockComment(depth - 1), Blank)
      else Action(1, m, Soften)
    case RawString(hashes) =>
      if c == '"' && Hashes(s[1..]) >= hashes then Action(1 + hashes, Code, Blank) else Action(1, m, Soften)
    case InString(escaped) =>
      if escaped then Action(1, InString(false), Soften)
      else if c == '\\' then Action(1, InString(true), Blank)
      else if c == '"' then Action(1, Code, Blank)
      else Action(1, m, Soften)
    case InChar(escaped) =>
      if escaped then Action(1, InChar(false), Blank)
      else if c == '\\' then Action(1, InChar(true), Blank)
      else if c == '\'' then Action(1, Code, Blank)
      else Action(1, m, Soften)
    case Code =>
      if StartsWith(s, '/', '/') then Action(2, LineComment, Blank)
      else if StartsWith(s, '/', '*') then Action(2, BlockComment(1), Blank)
      else if OpensRaw(s) then Action(2 + Hashes(s[1..]), RawString(Hashes(s[1..])), Blank)
      else if c == '"' then Action(1, InString(false), Blank)
      else if OpensChar(s) then Action(1, InChar(false), Blank)
      else Action(1, Code, Keep)
  }

  function Spaces(n: nat): string { seq(n, _ => ' ') }

  function Emit(s: string, n: Action): (r: string)
    requires n.width <= |s|
    ensures |r| == n.width
  {
    match n.fate
    case Keep => s[..n.width]
    case Soften => seq(n.width, i requires 0 <= i < n.width => Blanked(s[i]))
    case Blank => Spaces(n.width)
  }

  function Stripped(s: string, m: Mode): (r: string)
    ensures |r| == |s|
    decreases |s|
  {
    if s == "" then "" else var n := Next(s, m); Emit(s, n) + Stripped(s[n.width..], n.mode)
  }

  // ---------------------------------------------------------------- the loop

  /** What one turn of the loop does: one action of the pass. */
  ghost predicate Turned(src: string, i: nat, m: Mode, out: string, i': nat, m': Mode, out': string) {
    i < |src| && var n := Next(src[i..], m); i' == i + n.width && m' == n.mode && out' == out + Emit(src[i..], n)
  }

  lemma HashesAtLeast(s: string, h: nat)
    ensures h <= Hashes(s) <==> h <= |s| && forall k | 0 <= k < h :: s[k] == '#'
    decreases h
  {
    if h > 0 && s != "" && s[0] == '#' {
      HashesAtLeast(s[1..], h - 1);
      if h <= |s| && forall k | 0 <= k < h :: s[k] == '#' {
        assert forall k | 0 <= k < h - 1 :: s[1..][k] == s[k + 1];
      }
    }
  }

  lemma ClosesRaw(s: string, h: nat)
    requires s != ""
    ensures "\"" + seq(h, _ => '#') <= s <==> s[0] == '"' && Hashes(s[1..]) >= h
  {
    var closing := "\"" + seq(h, _ => '#');
    HashesAtLeast(s[1..], h);
    if closing <= s {
      assert s[0] == closing[0];
      forall k: nat | k < h ensures s[1..][k] == '#' { assert s[1..][k] == s[k + 1] == closing[k + 1]; }
    }
    if s[0] == '"' && Hashes(s[1..]) >= h {
      assert forall k | 0 <= k < h :: s[k + 1] == s[1..][k];
      assert s[..h + 1] == closing;
    }
  }

  /** The variables of the loop. */
  class Scan {
    const src: string
    var i: nat
    var out: string
    var inLineComment: bool
    var inBlockComment: nat
    var inString: bool
    var stringEscape: bool
    var rawStringHashes: Option<nat>
    var inChar: bool
    var charEscape: bool

    constructor (src: string)
      ensures this.src == src && Valid() && i == 0 && out == "" && Mode() == Code
    {
      this.src, i, out := src, 0, "";
      inLineComment, inBlockComment, inString, stringEscape := false, 0, false, false;
      rawStringHashes, inChar, charEscape := None, false, false;
    }

    /** At most one of the modes is on, and an escape is pending only in its own. */
    ghost predicate Valid()
      reads this
    {
      && (inLineComment ==> inBlockComment == 0 && rawStringHashes.None? && !inString && !inChar)
      && (inBlockComment > 0 ==> rawStringHashes.None? && !inString && !inChar)
      && (rawStringHashes.Some? ==> !inString && !inChar)
      && (inString ==> !inChar)
      && (stringEscape ==> inString)
      && (charEscape ==> inChar)
    }

    ghost function Mode(): Mode
      reads this
    {
      if inLineComment then LineComment
      else if inBlockComment > 0 then BlockComment(inBlockComment)
      else if rawStringHashes.Some? then RawString(rawStringHashes.value)
      else if inString then InString(stringEscape)
      else if inChar then InChar(charEscape)
      else Code
    }

    method Append(text: string)
      modifies this`out, this`i
      ensures out == old(out) + text && i == old(i) + |text|
    {
      out := out + text;
      i := i + |text|;
    }

    method TurnInLineComment()
      requires Valid() && i < |src| && Mode().LineComment?
      modifies this
      ensures Valid() && Turned(src, old(i), old(Mode()), old(out), i, Mode(), out)
    {
      var c := src[i];
      if c == '\n' { inLineComment := false; }
      Append([Blanked(c)]);
    }

    method TurnInBlockComment()
      requires Valid() && i < |src| && Mode().BlockComment?
      modifies this
      ensures Valid() && Turned(src, old(i), old(Mode()), old(out), i, Mode(), out)
    {
      var rest := src[i..];
      if StartsWith(rest, '/', '*') {
        inBlockComment := inBlockComment + 1;
        Append("  ");
      } else if StartsWith(rest, '*', '/') {
        inBlockComment := inBlockComment - 1;
        Append("  ");
      } else {
        Append([Blanked(src[i])]);
      }
    }

    method TurnInRawString()
      requires Valid() && i < |src| && Mode().RawString?
      modifies this
      ensures Valid() && Turned(src, old(i), old(Mode()), old(out), i, Mode(), out)
    {
      var hashes := rawStringHashes.value;
      var closing := "\"" + seq(hashes, _ => '#');
      ClosesRaw(src[i..], hashes);
      if closing <= src[i..] {
        rawStringHashes := None;
        Append(Spaces(|closing|));
      } else {
        Append([Blanked(src[i])]);
      }
    }

    method TurnInString()
      requires Valid() && i < |src| && Mode().InString?
      modifies this
      ensures Valid() && Turned(src, old(i), old(Mode()), old(out), i, Mode(), out)
    {
      var c := src[i];
      if stringEscape {
        stringEscape := false;
        Append([Blanked(c)]);
      } else if c == '\\' {
        stringEscape := true;
        Append(" ");
      } else if c == '"' {
        inString := false;
        Append(" ");
      } else {
        Append([Blanked(c)]);
      }
    }

    method TurnInChar()
      requires Valid() && i < |src| && Mode().InChar?
      modifies this
      ensures Valid() && Turned(src, old(i), old(Mode()), old(out), i, Mode(), out)
    {
      var c := src[i];
      if charEscape {
        charEscape := false;
        Append(" ");
      } else if c == '\\' {
        charEscape := true;
        Append(" ");
      } else if c == '\'' {
        inChar := false;
        Append(" ");
      } else {
        Append([Blanked(c)]);
      }
    }

    method TurnInCode()
      requires Valid() && i < |src| && Mode().Code?
      modifies this
      ensures Valid() && Turned(src, old(i), old(Mode()), old(out), i, Mode(), out)
    {
      var rest := src[i..];
      if StartsWith(rest, '/', '/') {
        inLineComment := true;
        Append("  ");
      } else if StartsWith(rest, '/', '*') {
        inBlockComment := 1;
        Append("  ");
      } else {
        TurnOutsideComments();
      }
    }

    /** In code, with no comment opening: a literal, or a character that stays. */
    method TurnOutsideComments()
      requires Valid() && i < |src| && Mode().Code?
      requires !StartsWith(src[i..], '/', '/') && !StartsWith(src[i..], '/', '*')
      modifies this
      ensures Valid() && Turned(src, old(i), old(Mode()), old(out), i, Mode(), out)
    {
      var c, rest := src[i], src[i..];
      if c == 'r' {
        var j := EndOfHashes(src, i + 1);
        assert rest[1..] == src[i + 1..];
        if j < |src| && src[j] == '"' {
          rawStringHashes := Some(j - i - 1);
          Append(Spaces(j - i + 1));
          return;
        }
      }
      if c == '"' {
        inString := true;
        Append(" ");
      } else if c == '\'' && exists k | 1 <= k <= 5 && k < |rest| :: rest[k] == '\'' {
        inChar := true;
        Append(" ");
      } else {
        Append([c]);
      }
    }

    method Turn()
      requires Valid() && i < |src|
      modifies this
      ensures Valid() && Turned(src, old(i), old(Mode()), old(out), i, Mode(), out)
    {
      if inLineComment { TurnInLineComment(); }
      else if inBlockComment > 0 { TurnInBlockComment(); }
      else if rawStringHashes.Some? { TurnInRawString(); }
      else if inString { TurnInString(); }
      else if inChar { TurnInChar(); }
      else { TurnInCode(); }
    }
  }

  lemma OneTurn(src: string, i: nat, m: Mode, out: string, i': nat, m': Mode, out': string)
    requires Turned(src, i, m, out, i', m', out')
    ensures i < i' <= |src| && out' + Stripped(src[i'..], m') == out + Stripped(src[i..], m)
  {
    var n := Next(src[i..], m);
    assert src[i..][n.width..] == src[i'..];
    Regroup(out, Emit(src[i..], n), Stripped(src[i'..], m'));
  }

  method StripCommentsAndStrings(src: string) returns (out: string)
    ensures out == Stripped(src, Code) && |out| == |src|
  {
    var scan := new Scan(src);
    assert src[0..] == src;
    while scan.i < |src|
      invariant scan.src == src && scan.i <= |src| && scan.Valid()
      invariant Stripped(src, Code) == scan.out + Stripped(src[scan.i..], scan.Mode())
    {
      ghost var i, m, done := scan.i, scan.Mode(), scan.out;
      scan.Turn();
      OneTurn(src, i, m, done, scan.i, scan.Mode(), scan.out);
    }
    out := scan.out;
  }

  // ---------------------------------------------------------------- what stripping keeps

  /** The mode in which the pass reaches index `i`; `None` when `i` is passed over inside an action. */
  function ModeAt(s: string, m: Mode, i: nat): Option<Mode>
    requires i <= |s|
    decreases |s|
  {
    if i == 0 then Some(m)
    else var n := Next(s, m); if i < n.width then None else ModeAt(s[n.width..], n.mode, i - n.width)
  }

  lemma {:induction false} InsideActionIsBlank(s: string, m: Mode, k: nat)
    requires s != "" && 0 < k < Next(s, m).width
    ensures !Separator(s[k]) && Next(s, m).fate == Blank
  {
    assert forall i | 0 <= i < Hashes(s[1..]) :: s[1..][i] == '#' && s[1 + i] == '#';
  }

  lemma EmitAt(s: string, n: Action, tail: string, i: nat)
    requires 0 < n.width <= |s| && i < n.width + |tail|
    ensures (Emit(s, n) + tail)[i] == if i < n.width then Emit(s, n)[i] else tail[i - n.width]
  {
  }

  /** What a text has at an index, what the pass makes of it, and the mode it is reached in. */
  datatype Sight = Sight(was: char, now: char, at: Option<Mode>)
  {
    /** A newline is lost only as the escaped character of a char literal, and nothing else becomes one. */
    predicate NewlineStays() { now == '\n' <==> was == '\n' && at != Some(InChar(true)) }

    /** The character is the input's or a space, and more than a newline or a tab only in code. */
    predicate Plausible() {
      && (now == was || now == ' ')
      && (now == ' ' || now == '\n' || now == '\t' || at == Some(Code))
    }

    /** A separator of lines stays in code, or as such a newline; else it becomes none. */
    predicate SeparatorStays() {
      Separator(was) && (at == Some(Code) || (was == '\n' && at != Some(InChar(true)))) <==> Separator(now)
    }
  }

  function Seen(s: string, m: Mode, i: nat): Sight
    requires i < |s|
  {
    Sight(s[i], Stripped(s, m)[i], ModeAt(s, m, i))
  }

  predicate Fine(sight: Sight) { sight.NewlineStays() && sight.Plausible() && sight.SeparatorStays() }

  lemma WithinAction(s: string, m: Mode, i: nat)
    requires i < |s| && i < Next(s, m).width
    ensures Fine(Seen(s, m, i))
  {
    var n := Next(s, m);
    EmitAt(s, n, Stripped(s[n.width..], n.mode), i);
    if i > 0 { InsideActionIsBlank(s, m, i); } else { FirstIsFine(s, m); }
  }

  lemma FirstIsFine(s: string, m: Mode)
    requires s != ""
    ensures Fine(Sight(s[0], Emit(s, Next(s, m))[0], Some(m)))
  {
  }

  lemma ModeLater(s: string, m: Mode, i: nat, n: Action, rest: string)
    requires s != "" && i <= |s| && n == Next(s, m) && n.width <= i && rest == s[n.width..]
    ensures ModeAt(s, m, i) == ModeAt(rest, n.mode, i - n.width)
  {
  }

  lemma StrippedLater(s: string, m: Mode, i: nat, n: Action, rest: string)
    requires i < |s| && n == Next(s, m) && n.width <= i && rest == s[n.width..]
    ensures s[i] == rest[i - n.width] && Stripped(s, m)[i] == Stripped(rest, n.mode)[i - n.width]
  {
    EmitAt(s, n, Stripped(rest, n.mode), i);
  }

  lemma SeenLater(s: string, m: Mode, i: nat, n: Action, rest: string)
    requires i < |s| && n == Next(s, m) && n.width <= i && rest == s[n.width..]
    ensures Seen(s, m, i) == Seen(rest, n.mode, i - n.width)
  {
    ModeLater(s, m, i, n, rest);
    StrippedLater(s, m, i, n, rest);
  }

  /** Induction over the actions of the pass. */
  lemma {:induction false} Everywhere(holds: (string, Mode, nat) -> bool, s: string, m: Mode, i: nat)
    requires i < |s|
    requires forall s, m, i: nat | i < |s| && i < Next(s, m).width :: holds(s, m, i)
    requires forall s, m, i: nat | i < |s| && Next(s, m).width <= i ::
      holds(s[Next(s, m).width..], Next(s, m).mode, i - Next(s, m).width) ==> holds(s, m, i)
    ensures holds(s, m, i)
    decreases |s|
  {
    var n := Next(s, m);
    if n.width <= i { Everywhere(holds, s[n.width..], n.mode, i - n.width); }
  }

  ghost predicate FineAt(s: string, m: Mode, i: nat) { i < |s| && Fine(Seen(s, m, i)) }

  lemma FineLater(s: string, m: Mode, i: nat)
    requires i < |s| && Next(s, m).width <= i
    requires FineAt(s[Next(s, m).width..], Next(s, m).mode, i - Next(s, m).width)
    ensures FineAt(s, m, i)
  {
    SeenLater(s, m, i, Next(s, m), s[Next(s, m).width..]);
  }

  lemma AllIsFine(s: string, m: Mode, i: nat)
    requires i < |s|
    ensures Fine(Seen(s, m, i))
  {
    forall s, m, i: nat | i < |s| && i < Next(s, m).width ensures FineAt(s, m, i) { WithinAction(s, m, i); }
    forall s, m, i: nat | i < |s| && Next(s, m).width <= i
      ensures FineAt(s[Next(s, m).width..], Next(s, m).mode, i - Next(s, m).width) ==> FineAt(s, m, i)
    {
      if FineAt(s[Next(s, m).width..], Next(s, m).mode, i - Next(s, m).width) { FineLater(s, m, i); }
    }
    Everywhere(FineAt, s, m, i);
  }

  /** Each newline stays, but one reached as the escaped character of a char literal, and no other character
      becomes one. */
  lemma NewlinesStay(s: string, m: Mode, i: nat)
    requires i < |s|
    ensures Stripped(s, m)[i] == '\n' <==> s[i] == '\n' && ModeAt(s, m, i) != Some(InChar(true))
  {
    AllIsFine(s, m, i);
    assert Seen(s, m, i).NewlineStays();
  }

  /** Nothing of a comment or a literal is left but newlines and tabs. */
  lemma CodeStays(s: string, m: Mode, i: nat)
    requires i < |s|
    ensures var r := Stripped(s, m);
            && (r[i] == s[i] || r[i] == ' ')
            && (r[i] == ' ' || r[i] == '\n' || r[i] == '\t' || ModeAt(s, m, i) == Some(Code))
  {
    AllIsFine(s, m, i);
    assert Seen(s, m, i).Plausible();
  }

  // ---------------------------------------------------------------- line numbers

  /** A line break that stripping leaves. */
  predicate Kept(s: string, i: nat)
    requires i < |s|
  {
    var at := ModeAt(s, Code, i);
    at == Some(Code) || (s[i] == '\n' && at != Some(InChar(true)))
  }

  /** After a carriage return in code the scan is still in code. */
  lemma {:induction false} CodeGoesOn(s: string, m: Mode, i: nat)
    requires i < |s| && ModeAt(s, m, i) == Some(Code) && s[i] == '\r'
    ensures ModeAt(s, m, i + 1) == Some(Code)
    decreases |s|
  {
    var n := Next(s, m);
    ModeLater(s, m, i + 1, n, s[n.width..]);
    if i > 0 {
      ModeLater(s, m, i, n, s[n.width..]);
      CodeGoesOn(s[n.width..], n.mode, i - n.width);
    }
  }

  /** From what is seen at two neighbouring places. */
  lemma BreakBetween(s: string, r: string, i: nat, at: Option<Mode>, next: Option<Mode>)
    requires |r| == |s| && i < |s| && Fine(Sight(s[i], r[i], at))
    requires i + 1 < |s| ==> Fine(Sight(s[i + 1], r[i + 1], next))
    requires i + 1 < |s| && s[i] == '\r' && at == Some(Code) ==> next == Some(Code)
    ensures BreaksAt(r, i) <==> BreaksAt(s, i) && (at == Some(Code) || (s[i] == '\n' && at != Some(InChar(true))))
  {
  }

  lemma BreakStays(s: string, i: nat)
    requires i < |s|
    ensures BreaksAt(Stripped(s, Code), i) <==> BreaksAt(s, i) && Kept(s, i)
  {
    var r := Stripped(s, Code);
    AllIsFine(s, Code, i);
    if i + 1 < |s| {
      AllIsFine(s, Code, i + 1);
      if s[i] == '\r' && ModeAt(s, Code, i) == Some(Code) { CodeGoesOn(s, Code, i); }
    }
    BreakBetween(s, r, i, ModeAt(s, Code, i), ModeAt(s, Code, i + 1));
  }

  /** Line numbers are stable exactly when every line break is in code, or a newline that is not the escaped
      character of a char literal. */
  lemma LineNumbersStable(s: string)
    ensures var r := Stripped(s, Code);
            && BreaksWithin(r, s)
            && (Breaks(r, |s|) == Breaks(s, |s|) <==> forall i | 0 <= i < |s| && BreaksAt(s, i) :: Kept(s, i))
  {
    var r := Stripped(s, Code);
    forall i | 0 <= i < |s| ensures BreaksAt(r, i) <==> BreaksAt(s, i) && Kept(s, i) {
      BreakStays(s, i);
    }
    FewerBreaks(r, s, |s|);
  }

  /** A char literal with a backslash at the end of a line. */
  lemma EscapedNewlineIsLost()
    ensures var s := ['\'', '\\', '\n', '\'']; Breaks(Stripped(s, Code), |s|) != Breaks(s, |s|)
  {
    var s := ['\'', '\\', '\n', '\''];
    assert s[3] == '\'' && OpensChar(s);
    assert Next(s, Code) == Action(1, InChar(false), Blank);
    assert Next(s[1..], InChar(false)) == Action(1, InChar(true), Blank);
    assert s[1..][1..] == s[2..];
    assert ModeAt(s, Code, 2) == ModeAt(s[1..], InChar(false), 1) == ModeAt(s[2..], InChar(true), 0);
    assert BreaksAt(s, 2) && !Kept(s, 2);
    LineNumbersStable(s);
  }

  /** A form feed in a comment. */
  lemma FormFeedIsLost()
    ensures var s := ['/', '/', '\U{0C}']; Breaks(Stripped(s, Code), |s|) != Breaks(s, |s|)
  {
    var s := ['/', '/', '\U{0C}'];
    assert Next(s, Code) == Action(2, LineComment, Blank);
    assert ModeAt(s, Code, 2) == ModeAt(s[2..], LineComment, 0);
    assert BreaksAt(s, 2) && !Kept(s, 2);
    LineNumbersStable(s);
  }
}
