/** What the mask of a text is, comment by comment and literal by literal, in the characters of the text. */
module LexerTexts {
  import opened Texts
  import opened LineBreaks
  import opened Tokens
  import opened Lexer

  // ---------------------------------------------------------------- text that is blanked

  function Space(c: char): char { if Separator(c) then c else ' ' }

  /** Blank, but for the ends of lines. */
  function Spaced(s: string): string { seq(|s|, i requires 0 <= i < |s| => Space(s[i])) }

  lemma SpacedConcat(s: string, t: string)
    ensures Spaced(s + t) == Spaced(s) + Spaced(t)
  {
  }

  /** One character inside a comment or a literal. */
  lemma InsideOne(a: Alphabet, c: char, rest: string, m: Mode, m': Mode)
    requires var n := Next(a, [c] + rest, m); n.width == 1 && n.mode == m' && (n.kept <==> Separator(c))
    ensures Mask(a, [c] + rest, m) == [Space(c)] + Mask(a, rest, m')
  {
    assert ([c] + rest)[1..] == rest;
  }

  // ---------------------------------------------------------------- code

  /** No comment and no literal opens here. */
  ghost predicate StartsNothing(s: string)
    requires s != ""
  {
    s[0] != '"' && s[0] != '\'' && !Starts(s, '/', '/') && !Starts(s, '/', '*') && !StartsRaw(s)
  }

  lemma CodeOne(a: Alphabet, u: string, rest: string)
    requires u != "" && StartsNothing(u) && rest == u[1..]
    ensures Mask(a, u, Code) == [u[0]] + Mask(a, rest, Code)
  {
    RawStart(u);
    assert Next(a, u, Code) == Action(1, Code, true);
  }

  lemma NothingLater(u: string, rest: string, n: nat)
    requires 0 < n <= |u| && rest == u[1..] && forall i | 0 <= i < n :: StartsNothing(u[i..])
    ensures forall i | 0 <= i < n - 1 :: StartsNothing(rest[i..])
    ensures StartsNothing(u)
  {
    assert u[0..] == u;
    forall i | 0 <= i < n - 1 ensures StartsNothing(rest[i..]) { assert rest[i..] == u[i + 1..]; }
  }

  /** Where nothing opens, code stays as it is, and the rest is masked from code. */
  lemma {:induction false} CodeStays(a: Alphabet, s: string, t: string)
    requires forall i | 0 <= i < |s| :: StartsNothing((s + t)[i..])
    ensures Mask(a, s + t, Code) == s + Mask(a, t, Code)
  {
    var u, masked := s + t, Mask(a, t, Code);
    if s == "" {
      assert u == t;
    } else {
      var rest := s[1..] + t;
      assert u[1..] == rest;
      NothingLater(u, rest, |s|);
      CodeStays(a, s[1..], t);
      CodeOne(a, u, rest);
      Prepend(Mask(a, u, Code), [s[0]], Mask(a, rest, Code), s[1..], masked, s);
    }
  }

  /** A text without quotes, apostrophes and slashes is its own mask. */
  lemma PlainIsKept(a: Alphabet, s: string)
    requires '"' !in s && '\'' !in s && '/' !in s
    ensures Mask(a, s, Code) == s
  {
    forall i | 0 <= i < |s| ensures StartsNothing((s + "")[i..]) {
      var u := s[i..];
      assert s + "" == s && u[0] == s[i];
      forall n: nat ensures !OpensWith(u, n) { assert n + 1 < |u| ==> u[n + 1] in s; }
    }
    CodeStays(a, s, "");
    assert s + "" == s && Mask(a, "", Code) == "";
  }

  // ---------------------------------------------------------------- comments

  lemma CommentOne(a: Alphabet, c: char, rest: string)
    ensures Mask(a, [c] + rest, LineComment) ==
            [Space(c)] + Mask(a, rest, if Separator(c) then Code else LineComment)
  {
    InsideOne(a, c, rest, LineComment, if Separator(c) then Code else LineComment);
  }

  lemma {:induction false} InLineComment(a: Alphabet, body: string, tail: string, masked: string)
    requires Unbroken(body) && masked == Mask(a, tail, LineComment)
    ensures Mask(a, body + tail, LineComment) == Blank(|body|) + masked
  {
    if body == "" {
      assert body + tail == tail;
    } else {
      var rest := body[1..] + tail;
      assert body + tail == [body[0]] + rest && Blank(|body|) == " " + Blank(|body| - 1);
      InLineComment(a, body[1..], tail, masked);
      CommentOne(a, body[0], rest);
      Prepend(Mask(a, body + tail, LineComment), " ", Mask(a, rest, LineComment), Blank(|body| - 1), masked,
        Blank(|body|));
    }
  }

  /** Two characters that open or close a comment. */
  lemma TwoOff(a: Alphabet, u: string, m: Mode, m': Mode, rest: string)
    requires |u| >= 2 && rest == u[2..] && Next(a, u, m) == Action(2, m', false)
    ensures Mask(a, u, m) == Blank(2) + Mask(a, rest, m')
  {
  }

  lemma OpenLineComment(a: Alphabet, rest: string)
    ensures Mask(a, "//" + rest, Code) == Blank(2) + Mask(a, rest, LineComment)
  {
    TwoOff(a, "//" + rest, Code, LineComment, rest);
  }

  /** A line comment is blank to the end of its line, and the next line is masked from code. */
  lemma LineCommentIsBlank(a: Alphabet, body: string, c: char, rest: string)
    requires Unbroken(body) && Separator(c)
    ensures Mask(a, "//" + (body + ([c] + rest)), Code) == Blank(2 + |body|) + ([c] + Mask(a, rest, Code))
  {
    var tail, masked := [c] + rest, [c] + Mask(a, rest, Code);
    CommentOne(a, c, rest);
    InLineComment(a, body, tail, masked);
    OpenLineComment(a, body + tail);
    Prepend(Mask(a, "//" + (body + tail), Code), Blank(2), Mask(a, body + tail, LineComment), Blank(|body|), masked,
      Blank(2 + |body|));
  }

  lemma TwoBlank(s: string)
    requires |s| >= 2 && !Separator(s[0]) && !Separator(s[1])
    ensures Spaced(s) == Blank(2) + Spaced(s[2..])
  {
  }

  /** Two characters that open or close a block comment inside one. */
  lemma BlockTwo(a: Alphabet, s: string, depth: nat, t: string)
    requires depth > 0 && (Starts(s, '/', '*') || Starts(s, '*', '/'))
    ensures var d := DepthAfter(s, depth);
            Mask(a, s + t, BlockComment(depth)) ==
            Spaced(s[..2]) + Mask(a, s[2..] + t, if d == 0 then Code else BlockComment(d))
  {
    var u, d := s + t, DepthAfter(s, depth);
    assert Spaced(s[..2]) == Blank(2) && u[2..] == s[2..] + t;
    TwoOff(a, u, BlockComment(depth), if d == 0 then Code else BlockComment(d), s[2..] + t);
  }

  lemma BlockChar(a: Alphabet, s: string, depth: nat, t: string)
    requires depth > 0 && s != "" && (|s| == 1 ==> t == "") && !Starts(s, '/', '*') && !Starts(s, '*', '/')
    ensures Mask(a, s + t, BlockComment(depth)) == Spaced(s[..1]) + Mask(a, s[1..] + t, BlockComment(depth))
  {
    var rest := s[1..] + t;
    assert s + t == [s[0]] + rest && Spaced(s[..1]) == [Space(s[0])];
    InsideOne(a, s[0], rest, BlockComment(depth), BlockComment(depth));
  }

  /** One or two characters of a block comment that goes on after them. */
  lemma BlockOne(a: Alphabet, s: string, depth: nat, t: string, k: nat)
    requires depth > 0 && s != "" && (|s| == 1 ==> t == "")
    requires k == if Starts(s, '/', '*') || Starts(s, '*', '/') then 2 else 1
    ensures var d := DepthAfter(s, depth);
            Mask(a, s + t, BlockComment(depth)) ==
            Spaced(s[..k]) + Mask(a, s[k..] + t, if d == 0 then Code else BlockComment(d))
  {
    if k == 2 { BlockTwo(a, s, depth, t); } else { BlockChar(a, s, depth, t); }
  }

  lemma {:induction false} InBlockComment(a: Alphabet, s: string, depth: nat, t: string, masked: string)
    requires Closes(s, depth) && depth > 0 && masked == Mask(a, t, Code)
    ensures Mask(a, s + t, BlockComment(depth)) == Spaced(s) + masked
    decreases |s|
  {
    var k, d := if Starts(s, '/', '*') || Starts(s, '*', '/') then 2 else 1, DepthAfter(s, depth);
    BlockOne(a, s, depth, t, k);
    assert s == s[..k] + s[k..];
    SpacedConcat(s[..k], s[k..]);
    if d == 0 {
      assert s[k..] == "" && s[k..] + t == t;
    } else {
      InBlockComment(a, s[k..], d, t, masked);
    }
    Prepend(Mask(a, s + t, BlockComment(depth)), Spaced(s[..k]),
      Mask(a, s[k..] + t, if d == 0 then Code else BlockComment(d)), Spaced(s[k..]), masked, Spaced(s));
  }

  lemma {:induction false} InOpenComment(a: Alphabet, s: string, depth: nat)
    requires StaysOpen(s, depth) && depth > 0
    ensures Mask(a, s, BlockComment(depth)) == Spaced(s)
    decreases |s|
  {
    if s != "" {
      var k, d := if Starts(s, '/', '*') || Starts(s, '*', '/') then 2 else 1, DepthAfter(s, depth);
      BlockOne(a, s, depth, "", k);
      assert s == s[..k] + s[k..] && s + "" == s && s[k..] + "" == s[k..];
      SpacedConcat(s[..k], s[k..]);
      InOpenComment(a, s[k..], d);
    }
  }

  /** A block comment is blank to the end that closes it, over as many lines as it takes, and the rest is masked from
      code; one that nothing closes is blank to the end of the text. */
  lemma BlockCommentIsBlank(a: Alphabet, s: string, t: string)
    ensures Closes(s, 1) ==> Mask(a, "/*" + s + t, Code) == Spaced("/*" + s) + Mask(a, t, Code)
    ensures StaysOpen(s, 1) ==> Mask(a, "/*" + s, Code) == Spaced("/*" + s)
  {
    var u, masked := "/*" + s + t, Mask(a, t, Code);
    TwoBlank("/*" + s);
    assert ("/*" + s)[2..] == s && u[2..] == s + t;
    if Closes(s, 1) {
      InBlockComment(a, s, 1, t, masked);
      TwoOff(a, u, Code, BlockComment(1), s + t);
      Prepend(Mask(a, u, Code), Blank(2), Mask(a, s + t, BlockComment(1)), Spaced(s), masked, Spaced("/*" + s));
    }
    if StaysOpen(s, 1) {
      InOpenComment(a, s, 1);
      TwoOff(a, "/*" + s, Code, BlockComment(1), s);
    }
  }

  // ---------------------------------------------------------------- strings and char literals

  /** The backslashes right before index `i`; the end of a line between them does not count. */
  function Slashes(s: string, i: nat): nat
    requires i <= |s|
  {
    if i == 0 then 0
    else if Separator(s[i - 1]) then Slashes(s, i - 1)
    else if s[i - 1] == '\\' then 1 + Slashes(s, i - 1)
    else 0
  }

  /** The character at `i` is taken literally. */
  predicate Escaped(s: string, i: nat)
    requires i <= |s|
  {
    Slashes(s, i) % 2 == 1
  }

  /** Every quote in the text is escaped. */
  predicate KeepsQuotes(s: string, quote: char) { forall i | 0 <= i < |s| && s[i] == quote :: Escaped(s, i) }

  lemma Tail(s: string, k: nat, t: string)
    requires k < |s|
    ensures s[k..] + t == [s[k]] + (s[k + 1..] + t) && Spaced(s[k..]) == [Space(s[k])] + Spaced(s[k + 1..])
  {
  }

  lemma StringOne(a: Alphabet, body: string, k: nat, rest: string)
    requires k < |body| && KeepsQuotes(body, '"')
    ensures Mask(a, [body[k]] + rest, InString(Escaped(body, k))) ==
            [Space(body[k])] + Mask(a, rest, InString(Escaped(body, k + 1)))
  {
    InsideOne(a, body[k], rest, InString(Escaped(body, k)), InString(Escaped(body, k + 1)));
  }

  lemma {:induction false} InStringBody(a: Alphabet, body: string, k: nat, tail: string, masked: string)
    requires k <= |body| && KeepsQuotes(body, '"') && masked == Mask(a, tail, InString(Escaped(body, |body|)))
    ensures Mask(a, body[k..] + tail, InString(Escaped(body, k))) == Spaced(body[k..]) + masked
    decreases |body| - k
  {
    if k == |body| {
      assert body[k..] + tail == tail;
    } else {
      var rest := body[k + 1..] + tail;
      InStringBody(a, body, k + 1, tail, masked);
      Tail(body, k, tail);
      StringOne(a, body, k, rest);
      Prepend(Mask(a, body[k..] + tail, InString(Escaped(body, k))), [Space(body[k])],
        Mask(a, rest, InString(Escaped(body, k + 1))), Spaced(body[k + 1..]), masked, Spaced(body[k..]));
    }
  }

  lemma OpenString(a: Alphabet, rest: string)
    ensures Mask(a, "\"" + rest, Code) == " " + Mask(a, rest, InString(false))
    ensures Mask(a, "\"" + rest, InString(false)) == " " + Mask(a, rest, Code)
  {
    InsideOne(a, '"', rest, Code, InString(false));
    InsideOne(a, '"', rest, InString(false), Code);
  }

  lemma WholeString(a: Alphabet, body: string, tail: string, masked: string)
    requires KeepsQuotes(body, '"') && masked == Mask(a, tail, InString(Escaped(body, |body|)))
    ensures Mask(a, "\"" + (body + tail), Code) == " " + (Spaced(body) + masked)
  {
    assert body[0..] == body && !Escaped(body, 0);
    InStringBody(a, body, 0, tail, masked);
    OpenString(a, body + tail);
  }

  /** A string is blank from its quote to the first quote that an even number of backslashes precedes, and the rest is
      masked from code. */
  lemma StringIsBlank(a: Alphabet, body: string, t: string)
    requires KeepsQuotes(body, '"') && !Escaped(body, |body|)
    ensures Mask(a, "\"" + (body + ("\"" + t)), Code) == " " + (Spaced(body) + (" " + Mask(a, t, Code)))
  {
    OpenString(a, t);
    WholeString(a, body, "\"" + t, " " + Mask(a, t, Code));
  }

  /** Without such a quote it is blank to the end of the text. */
  lemma OpenStringIsBlank(a: Alphabet, body: string)
    requires KeepsQuotes(body, '"')
    ensures Mask(a, "\"" + body, Code) == " " + Spaced(body)
  {
    WholeString(a, body, "", "");
    assert body + "" == body;
    assert Spaced(body) + "" == Spaced(body);
  }

  lemma CharOne(a: Alphabet, body: string, k: nat, rest: string)
    requires k < |body| && KeepsQuotes(body, '\'') && Unbroken(body)
    ensures Mask(a, [body[k]] + rest, InChar(Escaped(body, k))) == " " + Mask(a, rest, InChar(Escaped(body, k + 1)))
  {
    InsideOne(a, body[k], rest, InChar(Escaped(body, k)), InChar(Escaped(body, k + 1)));
  }

  lemma BlankOneMore(n: nat)
    ensures Blank(n + 1) == " " + Blank(n)
  {
  }

  lemma {:induction false} InCharBody(a: Alphabet, body: string, k: nat, tail: string, masked: string)
    requires k <= |body| && KeepsQuotes(body, '\'') && Unbroken(body)
    requires masked == Mask(a, tail, InChar(Escaped(body, |body|)))
    ensures Mask(a, body[k..] + tail, InChar(Escaped(body, k))) == Blank(|body| - k) + masked
    decreases |body| - k
  {
    if k == |body| {
      assert body[k..] + tail == tail;
    } else {
      var rest := body[k + 1..] + tail;
      InCharBody(a, body, k + 1, tail, masked);
      Tail(body, k, tail);
      CharOne(a, body, k, rest);
      BlankOneMore(|body| - k - 1);
      Prepend(Mask(a, body[k..] + tail, InChar(Escaped(body, k))), " ",
        Mask(a, rest, InChar(Escaped(body, k + 1))), Blank(|body| - k - 1), masked, Blank(|body| - k));
    }
  }

  /** A letter, or what stands for one, begins a name. */
  predicate Begins(a: Alphabet, c: char) { a.alpha(c) || c == '_' }

  lemma {:induction false} NameIs(a: Alphabet, s: string, n: nat)
    requires n <= |s| && (forall i | 0 <= i < n :: a.InName(s[i])) && (n == |s| || !a.InName(s[n]))
    ensures Name(a, s) == n
  {
    if n > 0 { NameIs(a, s[1..], n - 1); }
  }

  /** After its first character, that many name characters and an apostrophe. */
  predicate ClosesName(a: Alphabet, s: string, n: nat) {
    n + 1 < |s| && s[n + 1] == '\'' && forall i | 1 <= i <= n :: a.InName(s[i])
  }

  lemma OpenChar(a: Alphabet, rest: string)
    requires a.Sane()
    requires rest != "" && Begins(a, rest[0]) ==> exists n: nat :: ClosesName(a, rest, n)
    ensures Mask(a, "'" + rest, Code) == " " + Mask(a, rest, InChar(false))
  {
    var u := "'" + rest;
    if rest != "" && Begins(a, rest[0]) {
      var n: nat :| ClosesName(a, rest, n);
      assert u[2..] == rest[1..] && forall i | 0 <= i < n :: u[2..][i] == rest[i + 1];
      assert u[2..][n] == '\'';
      NameIs(a, u[2..], n);
      assert !IsLifetime(a, u);
    }
    InsideOne(a, '\'', rest, Code, InChar(false));
  }

  /** A char literal: what is between the apostrophes is a name, or does not begin one. */
  predicate IsChar(a: Alphabet, body: string) {
    && Unbroken(body) && KeepsQuotes(body, '\'') && !Escaped(body, |body|)
    && (body != "" && Begins(a, body[0]) ==> forall i | 1 <= i < |body| :: a.InName(body[i]))
  }

  lemma CloseChar(a: Alphabet, t: string)
    ensures Mask(a, "'" + t, InChar(false)) == " " + Mask(a, t, Code)
  {
    InsideOne(a, '\'', t, InChar(false), Code);
  }

  lemma WholeChar(a: Alphabet, body: string, tail: string, masked: string)
    requires Unbroken(body) && KeepsQuotes(body, '\'') && masked == Mask(a, tail, InChar(Escaped(body, |body|)))
    requires Mask(a, "'" + (body + tail), Code) == " " + Mask(a, body + tail, InChar(false))
    ensures Mask(a, "'" + (body + tail), Code) == " " + (Blank(|body|) + masked)
  {
    assert body[0..] == body && !Escaped(body, 0);
    InCharBody(a, body, 0, tail, masked);
  }

  lemma NameThenQuote(a: Alphabet, body: string, rest: string)
    requires IsChar(a, body) && |rest| > |body| && rest[..|body|] == body && rest[|body|] == '\''
    requires a.Sane() && Begins(a, rest[0])
    ensures exists n: nat :: ClosesName(a, rest, n)
  {
    assert body != "" && rest[0] == body[0];
    var n := |body| - 1;
    assert forall i | 1 <= i <= n :: rest[i] == body[i];
    assert ClosesName(a, rest, n);
  }

  /** A char literal is blank up to its second apostrophe, and the rest is masked from code. */
  lemma CharIsBlank(a: Alphabet, body: string, t: string)
    requires a.Sane() && IsChar(a, body)
    ensures Mask(a, "'" + (body + ("'" + t)), Code) == " " + (Blank(|body|) + (" " + Mask(a, t, Code)))
  {
    var tail := "'" + t;
    var rest := body + tail;
    if Begins(a, rest[0]) { NameThenQuote(a, body, rest); }
    OpenChar(a, rest);
    CloseChar(a, t);
    WholeChar(a, body, tail, " " + Mask(a, t, Code));
  }

  lemma EndOfChar(a: Alphabet, c: char, rest: string, escaped: bool)
    requires Separator(c)
    ensures Mask(a, [c] + rest, InChar(escaped)) == [c] + Mask(a, rest, Code)
  {
    InsideOne(a, c, rest, InChar(escaped), Code);
  }

  /** One that is not closed is blank to the end of its line only. */
  lemma CharEndsWithLine(a: Alphabet, body: string, c: char, rest: string)
    requires a.Sane() && Unbroken(body) && KeepsQuotes(body, '\'') && Separator(c)
    requires body != "" ==> !Begins(a, body[0])
    ensures Mask(a, "'" + (body + ([c] + rest)), Code) == " " + (Blank(|body|) + ([c] + Mask(a, rest, Code)))
  {
    var tail := [c] + rest;
    assert (body + tail)[0] == if body == "" then c else body[0];
    OpenChar(a, body + tail);
    EndOfChar(a, c, rest, Escaped(body, |body|));
    WholeChar(a, body, tail, [c] + Mask(a, rest, Code));
  }

  /** After a lifetime's apostrophe the text goes on in code. */
  lemma LifetimeGoesOn(a: Alphabet, name: string, t: string)
    requires name != "" && Begins(a, name[0]) && forall i | 1 <= i < |name| :: a.InName(name[i])
    requires t == "" || (!a.InName(t[0]) && t[0] != '\'')
    ensures Mask(a, "'" + (name + t), Code) == " " + Mask(a, name + t, Code)
  {
    var rest := name + t;
    var u := "'" + rest;
    assert u[2..] == name[1..] + t;
    NameIs(a, u[2..], |name| - 1);
    assert IsLifetime(a, u);
    InsideOne(a, '\'', rest, Code, Code);
  }

  // ---------------------------------------------------------------- raw strings

  /** Exactly that many hashes, and then something else. */
  predicate FollowedBy(s: string, n: nat) { n <= |s| && AreHashes(s[..n]) && (n == |s| || s[n] != '#') }

  /** No quote in the text is followed by exactly that many hashes. */
  predicate IsRaw(body: string, n: nat) {
    forall i | 0 <= i < |body| && body[i] == '"' :: !FollowedBy(body[i + 1..], n)
  }

  lemma StaysRaw(a: Alphabet, body: string, k: nat, n: nat, tail: string)
    requires k < |body| && IsRaw(body, n) && tail != "" && tail[0] == '"'
    ensures var rest := body[k + 1..] + tail;
            Mask(a, [body[k]] + rest, RawString(n)) == [Space(body[k])] + Mask(a, rest, RawString(n))
  {
    var rest, inside := body[k + 1..] + tail, body[k + 1..];
    assert ([body[k]] + rest)[1..] == rest && rest[|inside|] == '"';
    if body[k] == '"' && Hashes(rest) == n {
      if n <= |inside| {
        assert rest[..n] == inside[..n] && (n < |inside| ==> rest[n] == inside[n]);
        HashesEnd(rest);
        assert FollowedBy(inside, n);
      }
    }
    InsideOne(a, body[k], rest, RawString(n), RawString(n));
  }

  lemma {:induction false} InRawBody(a: Alphabet, body: string, k: nat, n: nat, tail: string, masked: string)
    requires k <= |body| && IsRaw(body, n) && tail != "" && tail[0] == '"' && masked == Mask(a, tail, RawString(n))
    ensures Mask(a, body[k..] + tail, RawString(n)) == Spaced(body[k..]) + masked
    decreases |body| - k
  {
    if k == |body| {
      assert body[k..] + tail == tail;
    } else {
      var rest := body[k + 1..] + tail;
      InRawBody(a, body, k + 1, n, tail, masked);
      Tail(body, k, tail);
      StaysRaw(a, body, k, n, tail);
      Prepend(Mask(a, body[k..] + tail, RawString(n)), [Space(body[k])], Mask(a, rest, RawString(n)),
        Spaced(body[k + 1..]), masked, Spaced(body[k..]));
    }
  }

  /** An action of that width that keeps nothing. */
  lemma WideOff(a: Alphabet, u: string, m: Mode, n: Action, rest: string)
    requires u != "" && n == Next(a, u, m) && !n.kept && rest == u[n.width..]
    ensures Mask(a, u, m) == Blank(n.width) + Mask(a, rest, n.mode)
  {
  }

  lemma CloseRaw(a: Alphabet, n: nat, t: string)
    requires t == "" || t[0] != '#'
    ensures Mask(a, "\"" + (Marks(n) + t), RawString(n)) == Blank(1 + n) + Mask(a, t, Code)
  {
    var rest := Marks(n) + t;
    var u := ['"'] + rest;
    HashesThen(n, t);
    assert u[1..] == rest && u[1 + n..] == rest[n..];
    assert Next(a, u, RawString(n)) == Action(1 + n, Code, false);
    WideOff(a, u, RawString(n), Action(1 + n, Code, false), t);
  }

  lemma OpenRaw(a: Alphabet, n: nat, rest: string)
    ensures Mask(a, "r" + (Marks(n) + ("\"" + rest)), Code) == Blank(2 + n) + Mask(a, rest, RawString(n))
  {
    var quoted := "\"" + rest;
    var marked := Marks(n) + quoted;
    var u := ['r'] + marked;
    HashesThen(n, quoted);
    assert u[1..] == marked && u[1 + n] == marked[n] == '"' && u[2 + n..] == rest;
    assert Next(a, u, Code) == Action(2 + n, RawString(n), false);
    WideOff(a, u, Code, Action(2 + n, RawString(n), false), rest);
  }

  /** A raw string is blank up to the first quote followed by exactly as many hashes as it opened with, and the rest is
      masked from code. */
  lemma RawStringIsBlank(a: Alphabet, n: nat, body: string, t: string)
    requires IsRaw(body, n) && (t == "" || t[0] != '#')
    ensures Mask(a, "r" + (Marks(n) + ("\"" + (body + ("\"" + (Marks(n) + t))))), Code) ==
            Blank(2 + n) + (Spaced(body) + (Blank(1 + n) + Mask(a, t, Code)))
  {
    var tail := "\"" + (Marks(n) + t);
    assert body[0..] == body;
    CloseRaw(a, n, t);
    InRawBody(a, body, 0, n, tail, Blank(1 + n) + Mask(a, t, Code));
    OpenRaw(a, n, body + tail);
  }
}
