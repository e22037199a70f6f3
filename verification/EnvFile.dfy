/** The bootstrap `.env` file: writing variables, and editing single lines. */
module EnvFile {
  import opened Json
  import opened Texts

  datatype Var = Var(key: string, value: string)

  // ---------------------------------------------------------------- escaping

  /** The two replacements, in the order in which they are made. */
  function Escaped(v: string): string { Replace(Replace(v, '\\', "\\\\"), '"', "\\\"") }

  function EscapedChar(c: char): string {
    if c == '\\' then "\\\\" else if c == '"' then "\\\"" else [c]
  }

  function EscapedChars(v: string): string {
    if v == "" then "" else EscapedChar(v[0]) + EscapedChars(v[1..])
  }

  /** The chained replacements are one substitution, character by character. */
  lemma {:induction false} EscapeIsCharwise(v: string)
    ensures Escaped(v) == EscapedChars(v)
  {
    if v != "" {
      var first := if v[0] == '\\' then "\\\\" else [v[0]];
      ReplaceConcat(first, Replace(v[1..], '\\', "\\\\"), '"', "\\\"");
      EscapeIsCharwise(v[1..]);
      assert "\\\\"[1..] == "\\" && "\\"[1..] == "" && [v[0]][1..] == "";
      assert Replace(first, '"', "\\\"") == EscapedChar(v[0]);
    }
  }

  // ---------------------------------------------------------------- writing and reading the file

  function Assign(v: Var): string { v.key + "=\"" + Escaped(v.value) + "\"" }

  function Printed(vars: seq<Var>): string {
    if vars == [] then "" else Assign(vars[0]) + "\n" + Printed(vars[1..])
  }

  lemma {:induction false} PrintedSnoc(vars: seq<Var>, v: Var)
    ensures Printed(vars + [v]) == Printed(vars) + Assign(v) + "\n"
  {
    if vars == [] {
      assert vars + [v] == [v] && [v][1..] == [];
      assert Printed([]) == "";
    } else {
      assert (vars + [v])[1..] == vars[1..] + [v];
      PrintedSnoc(vars[1..], v);
    }
  }

  method SaveBootstrapEnv(vars: seq<Var>) returns (content: string)
    ensures content == Printed(vars)
  {
    content := "";
    for i := 0 to |vars|
      invariant content == Printed(vars[..i])
    {
      PrintedSnoc(vars[..i], vars[i]);
      assert vars[..i + 1] == vars[..i] + [vars[i]];
      content := content + Assign(vars[i]) + "\n";
    }
    assert vars[..|vars|] == vars;
  }

  datatype Read<T> = Failed | Ok(value: T, rest: string)

  /** A double-quoted value from just after its opening quote: a backslash makes a backslash or a quote stand for
      itself, and stands before nothing else. */
  function ReadQuoted(s: string): (r: Read<string>)
    ensures r.Ok? ==> |r.rest| < |s|
  {
    if s == "" then Failed
    else if s[0] == '"' then Ok("", s[1..])
    else if s[0] == '\\' then
      if |s| < 2 || (s[1] != '\\' && s[1] != '"') then Failed
      else match ReadQuoted(s[2..])
        case Failed => Failed
        case Ok(v, rest) => Ok([s[1]] + v, rest)
    else match ReadQuoted(s[1..])
      case Failed => Failed
      case Ok(v, rest) => Ok([s[0]] + v, rest)
  }

  /** The text before the first equals sign, and the text after it. */
  function ReadKey(s: string): (r: Read<string>)
    ensures r.Ok? ==> |r.rest| < |s| && '=' !in r.value
  {
    if s == "" then Failed
    else if s[0] == '=' then Ok("", s[1..])
    else match ReadKey(s[1..])
      case Failed => Failed
      case Ok(k, rest) => Ok([s[0]] + k, rest)
  }

  function ReadVar(s: string): (r: Read<Var>)
    ensures r.Ok? ==> |r.rest| < |s| && '=' !in r.value.key
  {
    match ReadKey(s)
    case Failed => Failed
    case Ok(k, rest) =>
      if rest == "" || rest[0] != '"' then Failed
      else match ReadQuoted(rest[1..])
        case Failed => Failed
        case Ok(v, after) => if after != "" && after[0] == '\n' then Ok(Var(k, v), after[1..]) else Failed
  }

  function ReadAll(s: string): (r: Option<seq<Var>>)
    ensures r.Some? ==> forall i | 0 <= i < |r.value| :: '=' !in r.value[i].key
    decreases |s|
  {
    if s == "" then Some([])
    else match ReadVar(s)
      case Failed => None
      case Ok(v, rest) => match ReadAll(rest)
        case None => None
        case Some(vs) => Some([v] + vs)
  }

  lemma {:induction false} QuotedReadsBack(v: string, rest: string)
    ensures ReadQuoted(EscapedChars(v) + "\"" + rest) == Ok(v, rest)
  {
    var s := EscapedChars(v) + "\"" + rest;
    if v == "" {
      assert s[1..] == rest;
    } else {
      QuotedReadsBack(v[1..], rest);
      var e := EscapedChar(v[0]);
      assert s == e + (EscapedChars(v[1..]) + "\"" + rest);
      assert s[|e|..] == EscapedChars(v[1..]) + "\"" + rest;
      assert [v[0]] + v[1..] == v;
    }
  }

  lemma {:induction false} KeyReadsBack(k: string, rest: string)
    requires '=' !in k
    ensures ReadKey(k + "=" + rest) == Ok(k, rest)
  {
    var s := k + "=" + rest;
    if k == "" {
      assert s[1..] == rest;
    } else {
      assert s[1..] == k[1..] + "=" + rest;
      KeyReadsBack(k[1..], rest);
      assert [k[0]] + k[1..] == k;
    }
  }

  lemma AssignText(v: Var, rest: string)
    ensures Assign(v) + "\n" + rest == v.key + "=" + ("\"" + (EscapedChars(v.value) + "\"" + ("\n" + rest)))
  {
    EscapeIsCharwise(v.value);
  }

  lemma VarReadsBack(v: Var, rest: string)
    requires '=' !in v.key
    ensures ReadVar(Assign(v) + "\n" + rest) == Ok(v, rest)
  {
    var quoted := EscapedChars(v.value) + "\"" + ("\n" + rest);
    AssignText(v, rest);
    KeyReadsBack(v.key, "\"" + quoted);
    assert ("\"" + quoted)[1..] == quoted;
    QuotedReadsBack(v.value, "\n" + rest);
    assert ("\n" + rest)[1..] == rest;
  }

  lemma {:induction false} AllReadBack(vars: seq<Var>)
    requires forall i | 0 <= i < |vars| :: '=' !in vars[i].key
    ensures ReadAll(Printed(vars)) == Some(vars)
  {
    if vars != [] {
      AllReadBack(vars[1..]);
      VarReadsBack(vars[0], Printed(vars[1..]));
      assert [vars[0]] + vars[1..] == vars;
    }
  }

  lemma Longer(e: string, x: string, y: string, z: string)
    ensures e + (x + y + z) == (e + x) + y + z
  {
  }

  lemma {:induction false} QuotedIsEscaped(s: string)
    requires ReadQuoted(s).Ok?
    ensures var r := ReadQuoted(s); s == EscapedChars(r.value) + "\"" + r.rest
    decreases |s|
  {
    if s[0] == '"' {
      assert s == "\"" + s[1..];
    } else {
      var n := if s[0] == '\\' then 2 else 1;
      var c, later := s[n - 1], ReadQuoted(s[n..]);
      QuotedIsEscaped(s[n..]);
      assert s == EscapedChar(c) + s[n..];
      Longer(EscapedChar(c), EscapedChars(later.value), "\"", later.rest);
      EscapedCons(c, later.value);
    }
  }

  lemma EscapedCons(c: char, v: string)
    ensures EscapedChars([c] + v) == EscapedChar(c) + EscapedChars(v)
  {
    assert ([c] + v)[1..] == v;
  }

  lemma {:induction false} KeyIsBeforeEquals(s: string)
    requires ReadKey(s).Ok?
    ensures var r := ReadKey(s); s == r.value + "=" + r.rest
  {
    if s[0] == '=' {
      assert s == "=" + s[1..];
    } else {
      var later := ReadKey(s[1..]);
      KeyIsBeforeEquals(s[1..]);
      assert s == [s[0]] + s[1..];
      Longer([s[0]], later.value, "=", later.rest);
    }
  }

  lemma VarIsAssigned(s: string)
    requires ReadVar(s).Ok?
    ensures var r := ReadVar(s); s == Assign(r.value) + "\n" + r.rest
  {
    var k, rest := ReadKey(s).value, ReadKey(s).rest;
    var v, after := ReadQuoted(rest[1..]).value, ReadQuoted(rest[1..]).rest;
    KeyIsBeforeEquals(s);
    QuotedIsEscaped(rest[1..]);
    HeadAndTail(rest);
    HeadAndTail(after);
    VarText(s, k, rest, rest[1..], v, after, after[1..]);
  }

  lemma HeadAndTail(s: string)
    requires s != ""
    ensures s == [s[0]] + s[1..]
  {
  }

  lemma VarText(s: string, k: string, rest: string, quoted: string, v: string, after: string, more: string)
    requires s == k + "=" + rest && rest == "\"" + quoted && quoted == EscapedChars(v) + "\"" + after
    requires after == "\n" + more
    ensures s == Assign(Var(k, v)) + "\n" + more
  {
    AssignText(Var(k, v), more);
  }

  lemma {:induction false} ReadIsPrinted(s: string)
    requires ReadAll(s).Some?
    ensures s == Printed(ReadAll(s).value)
    decreases |s|
  {
    if s != "" {
      VarIsAssigned(s);
      var vs := ReadAll(s).value;
      ReadIsPrinted(ReadVar(s).rest);
      assert vs[1..] == ReadAll(ReadVar(s).rest).value;
    }
  }

  predicate EqualsFree(vars: seq<Var>) { forall i | 0 <= i < |vars| :: '=' !in vars[i].key }

  /** Whatever the values hold, quotes, backslashes and newlines included, a text reads as the variables exactly
      when it is what is written for them and no key has an equals sign. */
  lemma PrintedReadsBack(s: string, vars: seq<Var>)
    ensures ReadAll(s) == Some(vars) <==> s == Printed(vars) && EqualsFree(vars)
  {
    if EqualsFree(vars) { AllReadBack(vars); }
    if ReadAll(s).Some? { ReadIsPrinted(s); }
  }

  /** Distinct values have distinct escapes. */
  lemma EscapeIsInjective(v: string, w: string)
    requires Escaped(v) == Escaped(w)
    ensures v == w
  {
    EscapeIsCharwise(v);
    EscapeIsCharwise(w);
    QuotedReadsBack(v, "");
    QuotedReadsBack(w, "");
  }
}
