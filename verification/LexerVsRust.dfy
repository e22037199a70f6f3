/** Where the panic scanner's lexer parts from Rust: a backslash at the end of a line inside a string, a raw string's
    quote with more hashes than opened it, and characters that end a line in Python only. */
module LexerVsRust {
  import opened Json
  import opened Texts
  import opened LineBreaks
  import opened Lexer

  /** A line ends with a newline, or a carriage return and a newline. */
  predicate RustEnds(s: string)
    requires s != ""
  {
    s[0] == '\n' || (s[0] == '\r' && |s| > 1 && s[1] == '\n')
  }

  /** The mode after a character that means nothing in a literal or comment. */
  function Past(m: Mode): Mode {
    if m.InString? then InString(false) else if m.InChar? then InChar(false) else m
  }

  /** The same lexer with Rust's three rules: a line's end inside a string leaves no escape pending, the hashes that
      close a raw string may be followed by more, and no other character ends a line. Separators stay where they
      are, so that the masks have the same lines. */
  function RustNext(a: Alphabet, s: string, m: Mode): (r: Action)
    requires s != ""
    ensures 0 < r.width <= |s|
  {
    if Separator(s[0]) then Action(1, if RustEnds(s) then Past(EndLine(m)) else Past(m), true)
    else if m.RawString? && s[0] == '"' && Hashes(s[1..]) >= m.hashes then Action(1 + m.hashes, Code, false)
    else Next(a, s, m)
  }

  function RustModeAt(a: Alphabet, s: string, m: Mode, i: nat): Option<Mode>
    requires i <= |s|
    decreases |s|
  {
    if i == 0 then Some(m)
    else
      var n := RustNext(a, s, m);
      if i < n.width then None else RustModeAt(a, s[n.width..], n.mode, i - n.width)
  }

  function RustMask(a: Alphabet, s: string, m: Mode): string
    decreases |s|
  {
    if s == "" then ""
    else
      var n := RustNext(a, s, m);
      Emit(s, n) + RustMask(a, s[n.width..], n.mode)
  }

  /** None of the three places is at the front. */
  predicate Harmless(s: string, at: Option<Mode>)
    requires s != ""
  {
    && (Separator(s[0]) ==> at != Some(InString(true)))
    && (Separator(s[0]) && at.Some? && (at.value.LineComment? || at.value.InChar?) ==> RustEnds(s))
    && (s[0] == '"' && at.Some? && at.value.RawString? ==> Hashes(s[1..]) <= at.value.hashes)
  }

  /** No line's end is reached with an escape pending in a string, none but Rust's in a line comment or a char
      literal, and no quote in a raw string is followed by more hashes than opened it. */
  ghost predicate HarmlessAll(a: Alphabet, s: string, m: Mode) {
    forall i: nat | i < |s| :: HarmlessAt(a, s, m, i)
  }

  predicate HarmlessAt(a: Alphabet, s: string, m: Mode, i: nat)
    requires i < |s|
  {
    Harmless(s[i..], ModeAt(a, s, m, i))
  }

  predicate SameModeAt(a: Alphabet, s: string, m: Mode, i: nat)
    requires i <= |s|
  {
    ModeAt(a, s, m, i) == RustModeAt(a, s, m, i)
  }

  ghost predicate SameModes(a: Alphabet, s: string, m: Mode) {
    forall i: nat | i <= |s| :: SameModeAt(a, s, m, i)
  }

  lemma SameActions(a: Alphabet, s: string, m: Mode)
    requires s != "" && Harmless(s, Some(m))
    ensures RustNext(a, s, m) == Next(a, s, m)
  {
  }

  /** At the first harmful place the modes differ one character on. */
  lemma HarmShows(a: Alphabet, s: string, m: Mode)
    requires s != "" && !Harmless(s, Some(m))
    ensures ModeAt(a, s, m, 1) != RustModeAt(a, s, m, 1)
  {
  }

  lemma RustModeLater(a: Alphabet, s: string, m: Mode, i: nat, n: Action, rest: string)
    requires s != "" && i <= |s| && n == RustNext(a, s, m) && n.width <= i && rest == s[n.width..]
    ensures RustModeAt(a, s, m, i) == RustModeAt(a, rest, n.mode, i - n.width)
  {
  }

  lemma HarmlessShifts(a: Alphabet, s: string, m: Mode, n: Action, rest: string, i: nat)
    requires s != "" && n == Next(a, s, m) && rest == s[n.width..] && n.width <= i < |s|
    ensures HarmlessAt(a, s, m, i) <==> HarmlessAt(a, rest, n.mode, i - n.width)
  {
    ModeLater(a, s, m, i, n, rest);
    assert s[i..] == rest[i - n.width..];
  }

  lemma HarmlessBefore(a: Alphabet, s: string, m: Mode, i: nat)
    requires s != "" && Harmless(s, Some(m)) && i < Next(a, s, m).width
    ensures HarmlessAt(a, s, m, i)
  {
    if i == 0 { assert s[0..] == s; } else { assert ModeAt(a, s, m, i) == None; }
  }

  lemma HarmlessPlaces(a: Alphabet, s: string, m: Mode, n: Action, rest: string)
    requires s != "" && Harmless(s, Some(m)) && n == Next(a, s, m) && rest == s[n.width..]
    ensures forall i: nat | i < n.width :: HarmlessAt(a, s, m, i)
    ensures forall i: nat | n.width <= i < |s| :: HarmlessAt(a, s, m, i) <==> HarmlessAt(a, rest, n.mode, i - n.width)
  {
    forall i: nat | i < n.width ensures HarmlessAt(a, s, m, i) { HarmlessBefore(a, s, m, i); }
    forall i: nat | n.width <= i < |s| ensures HarmlessAt(a, s, m, i) <==> HarmlessAt(a, rest, n.mode, i - n.width) {
      HarmlessShifts(a, s, m, n, rest, i);
    }
  }

  /** Harm inside an action does not count: only its first character is reached in a mode. */
  lemma HarmlessLater(a: Alphabet, s: string, m: Mode, n: Action, rest: string)
    requires s != "" && Harmless(s, Some(m)) && n == Next(a, s, m) && rest == s[n.width..]
    ensures HarmlessAll(a, s, m) <==> HarmlessAll(a, rest, n.mode)
  {
    HarmlessPlaces(a, s, m, n, rest);
    var there := (i: nat) => i < |s| && HarmlessAt(a, s, m, i);
    var after := (i: nat) => i < |rest| && HarmlessAt(a, rest, n.mode, i);
    Shifted(there, after, n.width, |s|);
    forall i: nat | i < |s| ensures there(i) <==> HarmlessAt(a, s, m, i) {}
    forall i: nat | i < |rest| ensures after(i) <==> HarmlessAt(a, rest, n.mode, i) {}
  }

  /** A property of the places of a text, and of the places of what is left of it. */
  lemma Shifted(there: nat -> bool, after: nat -> bool, width: nat, end: nat)
    requires width <= end && (forall i: nat | i < width :: there(i))
    requires forall i: nat | width <= i < end :: there(i) <==> after(i - width)
    ensures (forall i: nat | i < end :: there(i)) <==> (forall j: nat | j < end - width :: after(j))
  {
    forall j: nat | j < end - width ensures there(j + width) <==> after(j) { assert j + width - width == j; }
  }

  lemma SameModesLater(a: Alphabet, s: string, m: Mode, n: Action, rest: string)
    requires s != "" && n == Next(a, s, m) == RustNext(a, s, m) && rest == s[n.width..]
    ensures SameModes(a, s, m) <==> SameModes(a, rest, n.mode)
  {
    forall i: nat | i < n.width ensures SameModeAt(a, s, m, i) { SameModeBefore(a, s, m, i); }
    forall i: nat | n.width <= i <= |s| ensures SameModeAt(a, s, m, i) <==> SameModeAt(a, rest, n.mode, i - n.width) {
      SameModeShifts(a, s, m, n, rest, i);
    }
    var there := (i: nat) => i <= |s| && SameModeAt(a, s, m, i);
    var after := (i: nat) => i <= |rest| && SameModeAt(a, rest, n.mode, i);
    Shifted(there, after, n.width, |s| + 1);
    forall i: nat | i <= |s| ensures there(i) <==> SameModeAt(a, s, m, i) {}
    forall i: nat | i <= |rest| ensures after(i) <==> SameModeAt(a, rest, n.mode, i) {}
  }

  lemma SameModeBefore(a: Alphabet, s: string, m: Mode, i: nat)
    requires s != "" && Next(a, s, m) == RustNext(a, s, m) && i < Next(a, s, m).width
    ensures SameModeAt(a, s, m, i)
  {
  }

  lemma SameModeShifts(a: Alphabet, s: string, m: Mode, n: Action, rest: string, i: nat)
    requires s != "" && n == Next(a, s, m) == RustNext(a, s, m) && rest == s[n.width..] && n.width <= i <= |s|
    ensures SameModeAt(a, s, m, i) <==> SameModeAt(a, rest, n.mode, i - n.width)
  {
    ModeLater(a, s, m, i, n, rest);
    RustModeLater(a, s, m, i, n, rest);
  }

  /** The two lexers are in the same mode everywhere exactly when none of the places is reached. */
  lemma {:induction false} AgreesExactlyWhenHarmless(a: Alphabet, s: string, m: Mode)
    ensures SameModes(a, s, m) <==> HarmlessAll(a, s, m)
    decreases |s|
  {
    if s != "" {
      assert s[0..] == s;
      if Harmless(s, Some(m)) {
        var n := Next(a, s, m);
        SameActions(a, s, m);
        AgreesExactlyWhenHarmless(a, s[n.width..], n.mode);
        HarmlessLater(a, s, m, n, s[n.width..]);
        SameModesLater(a, s, m, n, s[n.width..]);
      } else {
        HarmShows(a, s, m);
        assert !SameModeAt(a, s, m, 1) && !HarmlessAt(a, s, m, 0);
      }
    }
  }

  /** And then they mask the same. */
  lemma {:induction false} HarmlessMasksAgree(a: Alphabet, s: string, m: Mode)
    requires HarmlessAll(a, s, m)
    ensures Mask(a, s, m) == RustMask(a, s, m)
    decreases |s|
  {
    if s != "" {
      var n := Next(a, s, m);
      assert s[0..] == s && HarmlessAt(a, s, m, 0);
      SameActions(a, s, m);
      HarmlessLater(a, s, m, n, s[n.width..]);
      HarmlessMasksAgree(a, s[n.width..], n.mode);
    }
  }

  // ---------------------------------------------------------------- the three places

  /** A string that opens, a backslash at the end of its line, and a quote on the next. In Rust the backslash
      continues the string and the quote closes it. Here the escape stays pending over the line's end. */
  lemma EscapeCrossesLines(a: Alphabet)
    ensures var s := "\"\\\n\"";
            ModeAt(a, s, Code, 4) == Some(InString(false)) && RustModeAt(a, s, Code, 4) == Some(Code)
  {
    var s, t := "\"\\\n\"", "\\\n\"";
    assert s[1..] == t && s[0] == '"';
    assert Next(a, s, Code) == Action(1, InString(false), false);
    ModeLater(a, s, Code, 4, Next(a, s, Code), t);
    RustModeLater(a, s, Code, 4, Next(a, s, Code), t);
    EscapeInString(a, t);
  }

  lemma EscapeInString(a: Alphabet, s: string)
    requires |s| == 3 && s[0] == '\\' && s[1] == '\n' && s[2] == '"'
    ensures ModeAt(a, s, InString(false), 3) == Some(InString(false))
    ensures RustModeAt(a, s, InString(false), 3) == Some(Code)
  {
    var t, u := s[1..], s[2..];
    assert t[1..] == u && u[1..] == "";
    assert Next(a, s, InString(false)) == Action(1, InString(true), false) == RustNext(a, s, InString(false));
    ModeLater(a, s, InString(false), 3, Next(a, s, InString(false)), t);
    RustModeLater(a, s, InString(false), 3, Next(a, s, InString(false)), t);
    assert Next(a, t, InString(true)) == Action(1, InString(true), true);
    assert RustNext(a, t, InString(true)) == Action(1, InString(false), true);
    ModeLater(a, t, InString(true), 2, Next(a, t, InString(true)), u);
    RustModeLater(a, t, InString(true), 2, RustNext(a, t, InString(true)), u);
    assert Next(a, u, InString(true)) == Action(1, InString(false), false);
    assert RustNext(a, u, InString(false)) == Action(1, Code, false);
    ModeLater(a, u, InString(true), 1, Next(a, u, InString(true)), "");
    RustModeLater(a, u, InString(false), 1, RustNext(a, u, InString(false)), "");
  }

  /** A raw string opened with one hash, and a quote with two: it closes in Rust, and not here. */
  lemma ExtraHashKeepsRawOpen(a: Alphabet)
    ensures var s := "r#\"\"##"; ModeAt(a, s, Code, 5) == Some(RawString(1)) && RustModeAt(a, s, Code, 5) == Some(Code)
  {
    var s, t := "r#\"\"##", "\"##";
    assert s[3..] == t && s[1..][0] == '#' && s[1..][1..][0] == '"' && Hashes(s[1..]) == 1;
    assert Next(a, s, Code) == Action(3, RawString(1), false);
    ModeLater(a, s, Code, 5, Next(a, s, Code), t);
    RustModeLater(a, s, Code, 5, Next(a, s, Code), t);
    ExtraHashInRaw(a, t);
  }

  lemma ExtraHashInRaw(a: Alphabet, s: string)
    requires |s| == 3 && s[0] == '"' && s[1] == s[2] == '#'
    ensures ModeAt(a, s, RawString(1), 2) == Some(RawString(1)) && RustModeAt(a, s, RawString(1), 2) == Some(Code)
  {
    assert s[1..][1..] == s[2..] && s[2..][1..] == "";
    assert s[1..][0] == '#' && s[2..][0] == '#' && Hashes(s[2..]) == 1 && Hashes(s[1..]) == 2;
    assert Next(a, s, RawString(1)) == Action(1, RawString(1), false);
    assert RustNext(a, s, RawString(1)) == Action(2, Code, false);
    ModeLater(a, s, RawString(1), 2, Next(a, s, RawString(1)), s[1..]);
    RustModeLater(a, s, RawString(1), 2, RustNext(a, s, RawString(1)), s[2..]);
    assert Next(a, s[1..], RawString(1)) == Action(1, RawString(1), false);
    ModeLater(a, s[1..], RawString(1), 1, Next(a, s[1..], RawString(1)), s[2..]);
  }

  /** A form feed in a line comment: it ends the comment here, and not in Rust, so what follows it on the line is
      searched. */
  lemma FormFeedEndsComment(a: Alphabet)
    ensures var s := ['/', '/', '\U{0C}', 'x'];
            && ModeAt(a, s, Code, 3) == Some(Code) && RustModeAt(a, s, Code, 3) == Some(LineComment)
            && Mask(a, s, Code)[3] == 'x' && RustMask(a, s, Code)[3..] == " "
  {
    var s := ['/', '/', '\U{0C}', 'x'];
    assert Next(a, s, Code) == Action(2, LineComment, false) == RustNext(a, s, Code);
    var t := s[2..];
    FormFeedInComment(a, t);
    ModeLater(a, s, Code, 3, Next(a, s, Code), t);
    RustModeLater(a, s, Code, 3, Next(a, s, Code), t);
    assert Mask(a, s, Code) == Blank(2) + Mask(a, t, LineComment);
    assert RustMask(a, s, Code) == Blank(2) + RustMask(a, t, LineComment);
  }

  lemma FormFeedInComment(a: Alphabet, s: string)
    requires |s| == 2 && s[0] == '\U{0C}' && s[1] == 'x'
    ensures ModeAt(a, s, LineComment, 1) == Some(Code) && RustModeAt(a, s, LineComment, 1) == Some(LineComment)
    ensures Mask(a, s, LineComment) == [s[0], 'x'] && RustMask(a, s, LineComment) == [s[0], ' ']
  {
    assert s[1..] == "x" && s[1..][1..] == "";
    var n, k := Next(a, s, LineComment), RustNext(a, s, LineComment);
    assert n == Action(1, Code, true) && k == Action(1, LineComment, true);
    assert ModeAt(a, s, LineComment, 1) == ModeAt(a, s[1..], Code, 0);
    assert RustModeAt(a, s, LineComment, 1) == RustModeAt(a, s[1..], LineComment, 0);
    assert Next(a, s[1..], Code) == Action(1, Code, true);
    assert RustNext(a, s[1..], LineComment) == Action(1, LineComment, false);
    assert Mask(a, s[1..], Code) == "x" + Mask(a, "", Code) == "x";
    assert RustMask(a, s[1..], LineComment) == Blank(1) + RustMask(a, "", LineComment) == " ";
    assert Mask(a, s, LineComment) == [s[0]] + Mask(a, s[1..], Code);
    assert RustMask(a, s, LineComment) == [s[0]] + RustMask(a, s[1..], LineComment);
  }
}
