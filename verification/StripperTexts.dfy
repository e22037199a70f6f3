/** What stripping a file leaves, comment by comment and literal by literal, in the characters of the file. */
module StripperTexts {
  import opened Tokens
  import opened Stripper

  // ---------------------------------------------------------------- text that is blanked

  function Soft(c: char): char { if c == '\n' || c == '\t' then c else ' ' }

  /** Blank, but for newlines and tabs. */
  function Softened(s: string): string { seq(|s|, i requires 0 <= i < |s| => Soft(s[i])) }

  lemma SoftenedConcat(s: string, t: string)
    ensures Softened(s + t) == Softened(s) + Softened(t)
  {
  }

  /** One character inside a comment or a literal. */
  lemma InsideOne(c: char, rest: string, m: Mode, m': Mode)
    requires Next([c] + rest, m) == Action(1, m', Soften)
          || ((c != '\n' && c != '\t') && Next([c] + rest, m) == Action(1, m', Blank))
          || (c == '\n' && Next([c] + rest, m) == Action(1, m', Keep))
    ensures Stripped([c] + rest, m) == [Soft(c)] + Stripped(rest, m')
  {
    assert ([c] + rest)[1..] == rest;
  }

  /** An action of any width that leaves nothing. */
  lemma WideOff(u: string, m: Mode, n: Action, rest: string)
    requires u != "" && n == Next(u, m) && n.fate == Blank && rest == u[n.width..]
    ensures Stripped(u, m) == Spaces(n.width) + Stripped(rest, n.mode)
  {
  }

  lemma TailOf(s: string, k: nat, t: string)
    requires k < |s|
    ensures s[k..] + t == [s[k]] + (s[k + 1..] + t) && Softened(s[k..]) == [Soft(s[k])] + Softened(s[k + 1..])
  {
  }

  // ---------------------------------------------------------------- code

  /** An apostrophe that another one follows within five characters. */
  predicate StartsChar(s: string) {
    |s| > 1 && s[0] == '\'' &&
      (s[1] == '\'' || (|s| > 2 && s[2] == '\'') || (|s| > 3 && s[3] == '\'') || (|s| > 4 && s[4] == '\'')
      || (|s| > 5 && s[5] == '\''))
  }

  /** No comment and no literal opens here. */
  ghost predicate StartsNothing(s: string)
    requires s != ""
  {
    s[0] != '"' && !StartsChar(s) && !Starts(s, '/', '/') && !Starts(s, '/', '*') && !StartsRaw(s)
  }

  lemma CharStart(s: string)
    ensures StartsChar(s) <==> OpensChar(s)
  {
  }

  lemma CodeOne(u: string, rest: string)
    requires u != "" && StartsNothing(u) && rest == u[1..]
    ensures Stripped(u, Code) == [u[0]] + Stripped(rest, Code)
  {
    RawStart(u);
    CharStart(u);
    assert Next(u, Code) == Action(1, Code, Keep);
  }

  lemma NothingLater(u: string, rest: string, n: nat)
    requires 0 < n <= |u| && rest == u[1..] && forall i | 0 <= i < n :: StartsNothing(u[i..])
    ensures forall i | 0 <= i < n - 1 :: StartsNothing(rest[i..])
    ensures StartsNothing(u)
  {
    assert u[0..] == u;
    forall i | 0 <= i < n - 1 ensures StartsNothing(rest[i..]) { assert rest[i..] == u[i + 1..]; }
  }

  /** Where nothing opens, code stays as it is, and the rest is stripped from code. */
  lemma {:induction false} CodeIsKept(s: string, t: string)
    requires forall i | 0 <= i < |s| :: StartsNothing((s + t)[i..])
    ensures Stripped(s + t, Code) == s + Stripped(t, Code)
  {
    var u, stripped := s + t, Stripped(t, Code);
    if s == "" {
      assert u == t;
    } else {
      var rest := s[1..] + t;
      assert u[1..] == rest;
      NothingLater(u, rest, |s|);
      CodeIsKept(s[1..], t);
      CodeOne(u, rest);
      Prepend(Stripped(u, Code), [s[0]], Stripped(rest, Code), s[1..], stripped, s);
    }
  }

  /** A file without quotes, apostrophes and slashes is left as it is. */
  lemma PlainIsKept(s: string)
    requires '"' !in s && '\'' !in s && '/' !in s
    ensures Stripped(s, Code) == s
  {
    forall i | 0 <= i < |s| ensures StartsNothing((s + "")[i..]) {
      var u := s[i..];
      assert s + "" == s && u[0] == s[i];
      forall n: nat ensures !OpensWith(u, n) { assert n + 1 < |u| ==> u[n + 1] in s; }
    }
    CodeIsKept(s, "");
    assert s + "" == s && Stripped("", Code) == "";
  }

  // ---------------------------------------------------------------- comments

  lemma LineOne(c: char, rest: string)
    ensures Stripped([c] + rest, LineComment) == [Soft(c)] + Stripped(rest, if c == '\n' then Code else LineComment)
  {
    InsideOne(c, rest, LineComment, if c == '\n' then Code else LineComment);
  }

  lemma {:induction false} InLineComment(body: string, tail: string, stripped: string)
    requires '\n' !in body && stripped == Stripped(tail, LineComment)
    ensures Stripped(body + tail, LineComment) == Softened(body) + stripped
  {
    if body == "" {
      assert body + tail == tail;
    } else {
      var rest := body[1..] + tail;
      TailOf(body, 0, tail);
      assert body[0..] == body;
      InLineComment(body[1..], tail, stripped);
      LineOne(body[0], rest);
      Prepend(Stripped(body + tail, LineComment), [Soft(body[0])], Stripped(rest, LineComment), Softened(body[1..]),
        stripped, Softened(body));
    }
  }

  lemma OpenLineComment(rest: string)
    ensures Stripped("//" + rest, Code) == "  " + Stripped(rest, LineComment)
  {
    WideOff("//" + rest, Code, Action(2, LineComment, Blank), rest);
  }

  /** A line comment is blank up to its newline, and the rest is stripped from code. */
  lemma LineCommentIsBlank(body: string, rest: string)
    requires '\n' !in body
    ensures Stripped("//" + (body + ("\n" + rest)), Code) == "  " + (Softened(body) + ("\n" + Stripped(rest, Code)))
  {
    var tail, stripped := "\n" + rest, "\n" + Stripped(rest, Code);
    LineOne('\n', rest);
    InLineComment(body, tail, stripped);
    OpenLineComment(body + tail);
  }

  /** One or two characters of a block comment that goes on after them. */
  lemma BlockOne(s: string, depth: nat, t: string, k: nat)
    requires depth > 0 && s != "" && (|s| == 1 ==> t == "")
    requires k == if Starts(s, '/', '*') || Starts(s, '*', '/') then 2 else 1
    ensures var d := DepthAfter(s, depth);
            Stripped(s + t, BlockComment(depth)) ==
            Softened(s[..k]) + Stripped(s[k..] + t, if d == 0 then Code else BlockComment(d))
  {
    var u, d := s + t, DepthAfter(s, depth);
    assert u[k..] == s[k..] + t;
    if k == 2 {
      assert Softened(s[..2]) == Spaces(2);
      WideOff(u, BlockComment(depth), Action(2, if d == 0 then Code else BlockComment(d), Blank), s[k..] + t);
    } else {
      assert u == [s[0]] + (s[1..] + t) && s[..1] == [s[0]];
      InsideOne(s[0], s[1..] + t, BlockComment(depth), BlockComment(depth));
    }
  }

  lemma {:induction false} InBlockComment(s: string, depth: nat, t: string, stripped: string)
    requires Closes(s, depth) && depth > 0 && stripped == Stripped(t, Code)
    ensures Stripped(s + t, BlockComment(depth)) == Softened(s) + stripped
    decreases |s|
  {
    var k, d := if Starts(s, '/', '*') || Starts(s, '*', '/') then 2 else 1, DepthAfter(s, depth);
    BlockOne(s, depth, t, k);
    assert s == s[..k] + s[k..];
    SoftenedConcat(s[..k], s[k..]);
    if d == 0 {
      assert s[k..] == "" && s[k..] + t == t;
    } else {
      InBlockComment(s[k..], d, t, stripped);
    }
    Prepend(Stripped(s + t, BlockComment(depth)), Softened(s[..k]),
      Stripped(s[k..] + t, if d == 0 then Code else BlockComment(d)), Softened(s[k..]), stripped, Softened(s));
  }

  lemma {:induction false} InOpenComment(s: string, depth: nat)
    requires StaysOpen(s, depth) && depth > 0
    ensures Stripped(s, BlockComment(depth)) == Softened(s)
    decreases |s|
  {
    if s != "" {
      var k, d := if Starts(s, '/', '*') || Starts(s, '*', '/') then 2 else 1, DepthAfter(s, depth);
      BlockOne(s, depth, "", k);
      assert s == s[..k] + s[k..] && s + "" == s && s[k..] + "" == s[k..];
      SoftenedConcat(s[..k], s[k..]);
      InOpenComment(s[k..], d);
    }
  }

  lemma OpenBlockComment(rest: string)
    ensures Stripped("/*" + rest, Code) == "  " + Stripped(rest, BlockComment(1))
  {
    WideOff("/*" + rest, Code, Action(2, BlockComment(1), Blank), rest);
  }

  /** A block comment is blank to the end that closes it, and the rest is stripped from code; one that nothing closes is
      blank to the end of the file. */
  lemma BlockCommentIsBlank(s: string, t: string)
    ensures Closes(s, 1) ==> Stripped("/*" + (s + t), Code) == "  " + (Softened(s) + Stripped(t, Code))
    ensures StaysOpen(s, 1) ==> Stripped("/*" + s, Code) == "  " + Softened(s)
  {
    if Closes(s, 1) {
      InBlockComment(s, 1, t, Stripped(t, Code));
      OpenBlockComment(s + t);
    }
    if StaysOpen(s, 1) {
      InOpenComment(s, 1);
      OpenBlockComment(s);
    }
  }

  // ---------------------------------------------------------------- strings and char literals

  /** The backslashes right before index `i`. */
  function Slashes(s: string, i: nat): nat
    requires i <= |s|
  {
    if i > 0 && s[i - 1] == '\\' then 1 + Slashes(s, i - 1) else 0
  }

  /** The character at `i` is taken literally. */
  predicate Escaped(s: string, i: nat)
    requires i <= |s|
  {
    Slashes(s, i) % 2 == 1
  }

  /** Every quote in the text is escaped. */
  predicate KeepsQuotes(s: string, quote: char) { forall i | 0 <= i < |s| && s[i] == quote :: Escaped(s, i) }

  lemma StringOne(body: string, k: nat, rest: string)
    requires k < |body| && KeepsQuotes(body, '"')
    ensures Stripped([body[k]] + rest, InString(Escaped(body, k))) ==
            [Soft(body[k])] + Stripped(rest, InString(Escaped(body, k + 1)))
  {
    InsideOne(body[k], rest, InString(Escaped(body, k)), InString(Escaped(body, k + 1)));
  }

  lemma {:induction false} InStringBody(body: string, k: nat, tail: string, stripped: string)
    requires k <= |body| && KeepsQuotes(body, '"') && stripped == Stripped(tail, InString(Escaped(body, |body|)))
    ensures Stripped(body[k..] + tail, InString(Escaped(body, k))) == Softened(body[k..]) + stripped
    decreases |body| - k
  {
    if k == |body| {
      assert body[k..] + tail == tail;
    } else {
      var rest := body[k + 1..] + tail;
      InStringBody(body, k + 1, tail, stripped);
      TailOf(body, k, tail);
      StringOne(body, k, rest);
      Prepend(Stripped(body[k..] + tail, InString(Escaped(body, k))), [Soft(body[k])],
        Stripped(rest, InString(Escaped(body, k + 1))), Softened(body[k + 1..]), stripped, Softened(body[k..]));
    }
  }

  lemma OpenString(rest: string)
    ensures Stripped("\"" + rest, Code) == " " + Stripped(rest, InString(false))
    ensures Stripped("\"" + rest, InString(false)) == " " + Stripped(rest, Code)
  {
    InsideOne('"', rest, Code, InString(false));
    InsideOne('"', rest, InString(false), Code);
  }

  /** A string is blank up to the first quote that an even number of backslashes precedes, and the rest is stripped from
      code. */
  lemma StringIsBlank(body: string, t: string)
    requires KeepsQuotes(body, '"') && !Escaped(body, |body|)
    ensures Stripped("\"" + (body + ("\"" + t)), Code) == " " + (Softened(body) + (" " + Stripped(t, Code)))
  {
    var tail := "\"" + t;
    assert body[0..] == body && !Escaped(body, 0);
    OpenString(t);
    InStringBody(body, 0, tail, " " + Stripped(t, Code));
    OpenString(body + tail);
  }

  /** What a char literal leaves: nothing of an escaped character, not even a newline or a tab. */
  function CharLeft(s: string): string {
    seq(|s|, i requires 0 <= i < |s| => if Escaped(s, i) then ' ' else Soft(s[i]))
  }

  lemma EscapedOne(c: char, rest: string)
    ensures Stripped([c] + rest, InChar(true)) == " " + Stripped(rest, InChar(false))
  {
    var u := [c] + rest;
    WideOff(u, InChar(true), Action(1, InChar(false), Blank), rest);
  }

  lemma CharOne(body: string, k: nat, rest: string)
    requires k < |body| && KeepsQuotes(body, '\'')
    ensures Stripped([body[k]] + rest, InChar(Escaped(body, k))) ==
            [CharLeft(body)[k]] + Stripped(rest, InChar(Escaped(body, k + 1)))
  {
    if Escaped(body, k) { EscapedOne(body[k], rest); } else {
      InsideOne(body[k], rest, InChar(false), InChar(Escaped(body, k + 1)));
    }
  }

  lemma {:induction false} InCharBody(body: string, k: nat, tail: string, stripped: string)
    requires k <= |body| && KeepsQuotes(body, '\'') && stripped == Stripped(tail, InChar(Escaped(body, |body|)))
    ensures Stripped(body[k..] + tail, InChar(Escaped(body, k))) == CharLeft(body)[k..] + stripped
    decreases |body| - k
  {
    if k == |body| {
      assert body[k..] + tail == tail && CharLeft(body)[k..] + stripped == stripped;
    } else {
      var rest := body[k + 1..] + tail;
      InCharBody(body, k + 1, tail, stripped);
      TailOf(body, k, tail);
      CharOne(body, k, rest);
      Prepend(Stripped(body[k..] + tail, InChar(Escaped(body, k))), [CharLeft(body)[k]],
        Stripped(rest, InChar(Escaped(body, k + 1))), CharLeft(body)[k + 1..], stripped, CharLeft(body)[k..]);
    }
  }

  lemma CloseChar(t: string)
    ensures Stripped("'" + t, InChar(false)) == " " + Stripped(t, Code)
  {
    InsideOne('\'', t, InChar(false), Code);
  }

  lemma OpenChar(rest: string)
    requires StartsChar("'" + rest)
    ensures Stripped("'" + rest, Code) == " " + Stripped(rest, InChar(false))
  {
    CharStart("'" + rest);
    InsideOne('\'', rest, Code, InChar(false));
  }

  /** A char literal, of which some apostrophe comes within five characters, is blank up to the first apostrophe that is
      not escaped, and the rest is stripped from code. */
  lemma CharIsBlank(body: string, t: string)
    requires KeepsQuotes(body, '\'') && !Escaped(body, |body|) && StartsChar("'" + (body + ("'" + t)))
    ensures Stripped("'" + (body + ("'" + t)), Code) == " " + (CharLeft(body) + (" " + Stripped(t, Code)))
  {
    var tail := "'" + t;
    assert body[0..] == body && CharLeft(body)[0..] == CharLeft(body) && !Escaped(body, 0);
    OpenChar(body + tail);
    CloseChar(t);
    InCharBody(body, 0, tail, " " + Stripped(t, Code));
  }

  // ---------------------------------------------------------------- raw strings

  /** No quote in the text is followed by as many hashes. */
  predicate IsRaw(body: string, n: nat) {
    forall i | 0 <= i < |body| && body[i] == '"' && i + 1 + n <= |body| :: !AreHashes(body[i + 1..i + 1 + n])
  }

  lemma StaysRaw(body: string, k: nat, n: nat, tail: string)
    requires k < |body| && IsRaw(body, n) && tail != "" && tail[0] == '"'
    ensures var rest := body[k + 1..] + tail;
            Stripped([body[k]] + rest, RawString(n)) == [Soft(body[k])] + Stripped(rest, RawString(n))
  {
    var rest := body[k + 1..] + tail;
    var u := [body[k]] + rest;
    assert u[1..] == rest && rest[|body| - k - 1] == '"';
    if body[k] == '"' {
      HashesAtLeast(rest, n);
      if k + 1 + n <= |body| {
        var i :| 0 <= i < n && body[k + 1..k + 1 + n][i] != '#';
        assert rest[i] == body[k + 1 + i];
      }
    }
    InsideOne(body[k], rest, RawString(n), RawString(n));
  }

  lemma {:induction false} InRawBody(body: string, k: nat, n: nat, tail: string, stripped: string)
    requires k <= |body| && IsRaw(body, n) && tail != "" && tail[0] == '"' && stripped == Stripped(tail, RawString(n))
    ensures Stripped(body[k..] + tail, RawString(n)) == Softened(body[k..]) + stripped
    decreases |body| - k
  {
    if k == |body| {
      assert body[k..] + tail == tail;
    } else {
      var rest := body[k + 1..] + tail;
      InRawBody(body, k + 1, n, tail, stripped);
      TailOf(body, k, tail);
      StaysRaw(body, k, n, tail);
      Prepend(Stripped(body[k..] + tail, RawString(n)), [Soft(body[k])], Stripped(rest, RawString(n)),
        Softened(body[k + 1..]), stripped, Softened(body[k..]));
    }
  }

  lemma CloseRaw(n: nat, t: string)
    ensures Stripped("\"" + (Marks(n) + t), RawString(n)) == Spaces(1 + n) + Stripped(t, Code)
  {
    var rest := Marks(n) + t;
    var u := ['"'] + rest;
    HashesAtLeast(rest, n);
    assert u[1..] == rest && u[1 + n..] == rest[n..] == t;
    assert Next(u, RawString(n)) == Action(1 + n, Code, Blank);
    WideOff(u, RawString(n), Action(1 + n, Code, Blank), t);
  }

  lemma OpenRaw(n: nat, rest: string)
    ensures Stripped("r" + (Marks(n) + ("\"" + rest)), Code) == Spaces(2 + n) + Stripped(rest, RawString(n))
  {
    var quoted := "\"" + rest;
    var marked := Marks(n) + quoted;
    var u := ['r'] + marked;
    HashesThen(n, quoted);
    assert u[1..] == marked && u[1 + n] == marked[n] == '"' && u[2 + n..] == rest;
    assert Next(u, Code) == Action(2 + n, RawString(n), Blank);
    WideOff(u, Code, Action(2 + n, RawString(n), Blank), rest);
  }

  /** A raw string is blank up to the first quote followed by at least as many hashes as it opened with, and what comes
      after that many is stripped from code. */
  lemma RawStringIsBlank(n: nat, body: string, t: string)
    requires IsRaw(body, n)
    ensures Stripped("r" + (Marks(n) + ("\"" + (body + ("\"" + (Marks(n) + t))))), Code) ==
            Spaces(2 + n) + (Softened(body) + (Spaces(1 + n) + Stripped(t, Code)))
  {
    var tail := "\"" + (Marks(n) + t);
    assert body[0..] == body;
    CloseRaw(n, t);
    InRawBody(body, 0, n, tail, Spaces(1 + n) + Stripped(t, Code));
    OpenRaw(n, body + tail);
  }
}
