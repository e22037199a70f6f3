/** Editing the `.env` file line by line: one variable, several, or the removal of one. */
module EnvEdit {
  import opened Texts
  import opened EnvFile

  // ---------------------------------------------------------------- lines

  predicate EndsInCr(s: string) { s != "" && s[|s| - 1] == '\r' }

  function StripCr(s: string): string { if EndsInCr(s) then s[..|s| - 1] else s }

  /** The length of the text before the first newline. */
  function LineLength(s: string): (n: nat)
    ensures n <= |s| && OneLine(s[..n]) && (n < |s| ==> s[n] == '\n')
  {
    if s == "" || s[0] == '\n' then 0 else 1 + LineLength(s[1..])
  }

  /** `str::lines`: a newline ends a line, a carriage return before it goes with it, and a last line without
      a newline keeps its carriage return. */
  function Lines(s: string): (ls: seq<string>)
    ensures forall i | 0 <= i < |ls| :: OneLine(ls[i])
    decreases |s|
  {
    if s == "" then []
    else
      var n := LineLength(s);
      if n == |s| then [s] else [StripCr(s[..n])] + Lines(s[n + 1..])
  }

  function Unlines(ls: seq<string>): string {
    if ls == [] then "" else ls[0] + "\n" + Unlines(ls[1..])
  }

  function Stripped(ls: seq<string>): seq<string> {
    seq(|ls|, i requires 0 <= i < |ls| => StripCr(ls[i]))
  }

  lemma {:induction false} LineLengthOf(l: string, rest: string)
    requires OneLine(l)
    ensures LineLength(l + "\n" + rest) == |l|
  {
    var s := l + "\n" + rest;
    if l != "" {
      assert s[1..] == l[1..] + "\n" + rest;
      LineLengthOf(l[1..], rest);
    }
  }

  lemma {:induction false} LineLengthOfOneLine(s: string)
    requires OneLine(s)
    ensures LineLength(s) == |s|
  {
    if s != "" { LineLengthOfOneLine(s[1..]); }
  }

  /** Up to a newline there is one line, less one carriage return at its end; what comes after the last newline is
      a line as it is, unless it is empty. */
  lemma LinesOfText(l: string, rest: string)
    requires OneLine(l)
    ensures Lines(l + "\n" + rest) == [if l != "" && l[|l| - 1] == '\r' then l[..|l| - 1] else l] + Lines(rest)
    ensures Lines(l) == if l == "" then [] else [l]
  {
    var s := l + "\n" + rest;
    LineLengthOf(l, rest);
    assert s[..|l|] == l && s[|l| + 1..] == rest;
    LineLengthOfOneLine(l);
  }

  /** Reading lines back loses a carriage return at the end of a line, and nothing else. */
  lemma {:induction false} LinesOfUnlines(ls: seq<string>)
    requires forall i | 0 <= i < |ls| :: OneLine(ls[i])
    ensures Lines(Unlines(ls)) == Stripped(ls)
  {
    if ls != [] {
      var s, l, rest := Unlines(ls), ls[0], Unlines(ls[1..]);
      LineLengthOf(l, rest);
      assert s[..|l|] == l && s[|l| + 1..] == rest;
      LinesOfUnlines(ls[1..]);
      assert Stripped(ls) == [StripCr(l)] + Stripped(ls[1..]);
    }
  }

  lemma {:induction false} UnlinesIsInjective(a: seq<string>, b: seq<string>)
    requires forall i | 0 <= i < |a| :: OneLine(a[i])
    requires forall i | 0 <= i < |b| :: OneLine(b[i])
    requires Unlines(a) == Unlines(b)
    ensures a == b
  {
    if a != [] && b != [] {
      LineLengthOf(a[0], Unlines(a[1..]));
      LineLengthOf(b[0], Unlines(b[1..]));
      var s := Unlines(a);
      assert s[..|a[0]|] == a[0] && s[..|b[0]|] == b[0];
      assert s[|a[0]| + 1..] == Unlines(a[1..]) && s[|b[0]| + 1..] == Unlines(b[1..]);
      UnlinesIsInjective(a[1..], b[1..]);
    }
  }

  lemma {:induction false} UnlinesSnoc(ls: seq<string>, l: string)
    ensures Unlines(ls + [l]) == Unlines(ls) + l + "\n"
  {
    if ls == [] {
      assert [] + [l] == [l] && [l][1..] == [];
    } else {
      assert (ls + [l])[1..] == ls[1..] + [l];
      UnlinesSnoc(ls[1..], l);
    }
  }

  // ---------------------------------------------------------------- texts of several lines

  /** The lines of a text, with their carriage returns. */
  function RawLines(s: string): (ls: seq<string>)
    ensures ls != [] && forall i | 0 <= i < |ls| :: OneLine(ls[i])
    decreases |s|
  {
    var n := LineLength(s);
    if n == |s| then [s[..n]] else [s[..n]] + RawLines(s[n + 1..])
  }

  function Raws(ls: seq<string>): (r: seq<string>)
    ensures forall i | 0 <= i < |r| :: OneLine(r[i])
    ensures |r| >= |ls|
  {
    if ls == [] then [] else RawLines(ls[0]) + Raws(ls[1..])
  }

  lemma {:induction false} RawsConcat(a: seq<string>, b: seq<string>)
    ensures Raws(a + b) == Raws(a) + Raws(b)
  {
    if a == [] {
      assert a + b == b;
    } else {
      assert (a + b)[1..] == a[1..] + b;
      RawsConcat(a[1..], b);
    }
  }

  lemma {:induction false} RawsOfLines(ls: seq<string>)
    requires forall i | 0 <= i < |ls| :: OneLine(ls[i])
    ensures Raws(ls) == ls
  {
    if ls != [] {
      LineLengthOfOneLine(ls[0]);
      assert ls[0][..|ls[0]|] == ls[0];
      RawsOfLines(ls[1..]);
      assert ls == [ls[0]] + ls[1..];
    }
  }

  lemma {:induction false} UnlinesConcat(a: seq<string>, b: seq<string>)
    ensures Unlines(a + b) == Unlines(a) + Unlines(b)
  {
    if a == [] {
      assert a + b == b;
    } else {
      assert (a + b)[1..] == a[1..] + b;
      UnlinesConcat(a[1..], b);
    }
  }

  lemma {:induction false} UnlinesRawLines(s: string)
    ensures Unlines(RawLines(s)) == s + "\n"
    decreases |s|
  {
    var n := LineLength(s);
    if n == |s| {
      assert s[..n] == s && [s] == [s] + [];
      UnlinesCons(s, []);
    } else {
      UnlinesRawLines(s[n + 1..]);
      UnlinesCons(s[..n], RawLines(s[n + 1..]));
      TwoParts(s, n);
    }
  }

  lemma UnlinesCons(l: string, ls: seq<string>)
    ensures Unlines([l] + ls) == l + "\n" + Unlines(ls)
  {
    assert ([l] + ls)[1..] == ls;
  }

  lemma TwoParts(s: string, n: nat)
    requires n < |s| && s[n] == '\n'
    ensures s[..n] + "\n" + (s[n + 1..] + "\n") == s + "\n"
  {
  }

  /** Lines that hold newlines are written as the lines they hold. */
  lemma {:induction false} UnlinesRaws(ls: seq<string>)
    ensures Unlines(Raws(ls)) == Unlines(ls)
  {
    if ls != [] {
      UnlinesRawLines(ls[0]);
      UnlinesConcat(RawLines(ls[0]), Raws(ls[1..]));
      UnlinesRaws(ls[1..]);
    }
  }

  /** So they are read back, each less a carriage return at its end. */
  lemma LinesOfWritten(ls: seq<string>)
    ensures Lines(Unlines(ls)) == Stripped(Raws(ls))
  {
    UnlinesRaws(ls);
    LinesOfUnlines(Raws(ls));
  }

  lemma WrittenAlike(a: seq<string>, b: seq<string>)
    ensures Unlines(a) == Unlines(b) <==> Raws(a) == Raws(b)
  {
    UnlinesRaws(a);
    UnlinesRaws(b);
    if Unlines(a) == Unlines(b) { UnlinesIsInjective(Raws(a), Raws(b)); }
  }

  // ---------------------------------------------------------------- keeping lines

  /** The lines that satisfy `p`, in order. */
  function Keep(p: string -> bool, ls: seq<string>): (r: seq<string>)
    ensures forall l :: l in r <==> l in ls && p(l)
  {
    if ls == [] then []
    else
      var front, l := ls[..|ls| - 1], ls[|ls| - 1];
      assert ls == front + [l];
      if p(l) then Keep(p, front) + [l] else Keep(p, front)
  }

  lemma {:induction false} KeepConcat(p: string -> bool, a: seq<string>, b: seq<string>)
    ensures Keep(p, a + b) == Keep(p, a) + Keep(p, b)
  {
    if b == [] {
      assert a + b == a;
    } else {
      assert (a + b)[..|a + b| - 1] == a + b[..|b| - 1];
      KeepConcat(p, a, b[..|b| - 1]);
    }
  }

  lemma {:induction false} KeepAll(p: string -> bool, ls: seq<string>)
    requires forall i | 0 <= i < |ls| :: p(ls[i])
    ensures Keep(p, ls) == ls
  {
    if ls != [] {
      var front, l := ls[..|ls| - 1], ls[|ls| - 1];
      KeepAll(p, front);
      assert p(l) && ls == front + [l];
    }
  }

  lemma {:induction false} KeepNone(p: string -> bool, ls: seq<string>)
    requires forall i | 0 <= i < |ls| :: !p(ls[i])
    ensures Keep(p, ls) == []
  {
    if ls != [] { KeepNone(p, ls[..|ls| - 1]); }
  }

  lemma {:induction false} KeepSame(p: string -> bool, q: string -> bool, ls: seq<string>)
    requires forall i | 0 <= i < |ls| :: p(ls[i]) == q(ls[i])
    ensures Keep(p, ls) == Keep(q, ls)
  {
    if ls != [] { KeepSame(p, q, ls[..|ls| - 1]); }
  }

  // ---------------------------------------------------------------- one variable

  /** The line assigns the key, as `starts_with` sees it. */
  predicate HasKey(k: string, l: string) { k + "=" <= l }

  function OfKey(k: string): string -> bool { l => HasKey(k, l) }
  function NotOfKey(k: string): string -> bool { l => !HasKey(k, l) }

  /** Some line assigns the key. */
  predicate Assigns(ls: seq<string>, k: string) {
    ls != [] && (HasKey(k, ls[|ls| - 1]) || Assigns(ls[..|ls| - 1], k))
  }

  /** The lines written while walking the file: the new line for the first line of the key, none for the
      others. */
  function Walked(ls: seq<string>, v: Var): seq<string> {
    if ls == [] then []
    else
      var front, l := ls[..|ls| - 1], ls[|ls| - 1];
      if !HasKey(v.key, l) then Walked(front, v) + [l]
      else if Assigns(front, v.key) then Walked(front, v)
      else Walked(front, v) + [Assign(v)]
  }

  /** The lines after an upsert of `v`. */
  function Upserted(ls: seq<string>, v: Var): seq<string> {
    if Assigns(ls, v.key) then Walked(ls, v) else Walked(ls, v) + [Assign(v)]
  }

  method UpsertVar(existing: string, v: Var) returns (result: string)
    ensures result == Unlines(Upserted(Lines(existing), v))
  {
    var newLine := Assign(v);
    var ls := Lines(existing);
    var found := false;
    result := "";
    for i := 0 to |ls|
      invariant found == Assigns(ls[..i], v.key)
      invariant result == Unlines(Walked(ls[..i], v))
    {
      assert ls[..i + 1][..i] == ls[..i];
      if HasKey(v.key, ls[i]) {
        if !found {
          UnlinesSnoc(Walked(ls[..i], v), newLine);
          result := result + newLine + "\n";
          found := true;
        }
      } else {
        UnlinesSnoc(Walked(ls[..i], v), ls[i]);
        result := result + ls[i] + "\n";
      }
    }
    assert ls[..|ls|] == ls;
    if !found {
      UnlinesSnoc(Walked(ls, v), newLine);
      result := result + newLine + "\n";
    }
  }

  method RemoveVar(existing: string, k: string) returns (result: string)
    ensures result == Removed(existing, k)
  {
    var ls := Lines(existing);
    var removed := false;
    result := "";
    for i := 0 to |ls|
      invariant removed == Assigns(ls[..i], k)
      invariant result == Unlines(Keep(NotOfKey(k), ls[..i]))
    {
      assert ls[..i + 1][..i] == ls[..i];
      if HasKey(k, ls[i]) {
        removed := true;
      } else {
        UnlinesSnoc(Keep(NotOfKey(k), ls[..i]), ls[i]);
        result := result + ls[i] + "\n";
      }
    }
    assert ls[..|ls|] == ls;
    if !removed { result := existing; }
  }

  /** A file without the key is not rewritten. */
  function Removed(existing: string, k: string): string {
    if Assigns(Lines(existing), k) then Unlines(Keep(NotOfKey(k), Lines(existing))) else existing
  }

  // ---------------------------------------------------------------- its laws

  lemma AssignHasKey(v: Var)
    ensures HasKey(v.key, Assign(v)) && !EndsInCr(Assign(v))
    ensures OneLine(v.key) && OneLine(v.value) ==> OneLine(Assign(v))
  {
    var rest := "\"" + Escaped(v.value) + "\"";
    assert Assign(v) == v.key + "=" + rest;
    EscapeIsCharwise(v.value);
    EscapeAddsNoNewline(v.value);
  }

  lemma {:induction false} EscapeAddsNoNewline(v: string)
    ensures OneLine(v) ==> OneLine(EscapedChars(v))
  {
    if v != "" {
      EscapeAddsNoNewline(v[1..]);
      assert OneLine(v) ==> OneLine(EscapedChar(v[0]));
    }
  }

  lemma {:induction false} AssignsAnywhere(ls: seq<string>, k: string)
    ensures Assigns(ls, k) <==> exists l :: l in ls && HasKey(k, l)
  {
    if ls != [] {
      AssignsAnywhere(ls[..|ls| - 1], k);
      assert ls == ls[..|ls| - 1] + [ls[|ls| - 1]];
    }
  }

  lemma {:induction false} WalkedHolds(ls: seq<string>, v: Var)
    ensures Keep(OfKey(v.key), Walked(ls, v)) == if Assigns(ls, v.key) then [Assign(v)] else []
    ensures Keep(NotOfKey(v.key), Walked(ls, v)) == Keep(NotOfKey(v.key), ls)
  {
    if ls != [] {
      WalkedHolds(ls[..|ls| - 1], v);
      AssignHasKey(v);
    }
  }

  /** After an upsert the key has exactly one line, the new one, and every other line is kept, in order. */
  lemma UpsertedHolds(ls: seq<string>, v: Var)
    ensures Keep(OfKey(v.key), Upserted(ls, v)) == [Assign(v)]
    ensures Keep(NotOfKey(v.key), Upserted(ls, v)) == Keep(NotOfKey(v.key), ls)
  {
    WalkedHolds(ls, v);
    AssignHasKey(v);
  }

  lemma {:induction false} WalkedWithout(ls: seq<string>, v: Var)
    requires !Assigns(ls, v.key)
    ensures Walked(ls, v) == ls
  {
    if ls != [] { WalkedWithout(ls[..|ls| - 1], v); }
  }

  lemma WalkedSnoc(ls: seq<string>, l: string, v: Var)
    ensures Assigns(ls + [l], v.key) <==> HasKey(v.key, l) || Assigns(ls, v.key)
    ensures Walked(ls + [l], v) ==
            Walked(ls, v) + if !HasKey(v.key, l) then [l] else if Assigns(ls, v.key) then [] else [Assign(v)]
  {
    assert (ls + [l])[..|ls|] == ls;
  }

  lemma {:induction false} WalkedAfter(a: seq<string>, l: string, b: seq<string>, v: Var)
    requires !Assigns(a, v.key) && HasKey(v.key, l)
    ensures Walked(a + [l] + b, v) == a + [Assign(v)] + Keep(NotOfKey(v.key), b) && Assigns(a + [l] + b, v.key)
  {
    if b == [] {
      assert a + [l] + b == a + [l];
      WalkedSnoc(a, l, v);
      WalkedWithout(a, v);
      assert a + [Assign(v)] + [] == a + [Assign(v)];
    } else {
      var front, last := b[..|b| - 1], b[|b| - 1];
      assert a + [l] + b == a + [l] + front + [last];
      WalkedSnoc(a + [l] + front, last, v);
      WalkedAfter(a, l, front, v);
    }
  }

  /** The new line stands where the first line of the key stood, or at the end if there was none. */
  lemma UpsertedInPlace(a: seq<string>, l: string, b: seq<string>, v: Var)
    requires !Assigns(a, v.key)
    ensures HasKey(v.key, l) ==> Upserted(a + [l] + b, v) == a + [Assign(v)] + Keep(NotOfKey(v.key), b)
    ensures Upserted(a, v) == a + [Assign(v)]
  {
    WalkedWithout(a, v);
    if HasKey(v.key, l) { WalkedAfter(a, l, b, v); }
  }

  lemma {:induction false} SplitAtFirst(ls: seq<string>, k: string) returns (a: seq<string>, l: string, b: seq<string>)
    requires Assigns(ls, k)
    ensures ls == a + [l] + b && !Assigns(a, k) && HasKey(k, l)
  {
    var front, last := ls[..|ls| - 1], ls[|ls| - 1];
    assert ls == front + [last];
    if Assigns(front, k) {
      a, l, b := SplitAtFirst(front, k);
      b := b + [last];
    } else {
      a, l, b := front, last, [];
    }
  }

  lemma KeepTwice(p: string -> bool, ls: seq<string>)
    ensures Keep(p, Keep(p, ls)) == Keep(p, ls)
  {
    forall i | 0 <= i < |Keep(p, ls)| ensures p(Keep(p, ls)[i]) { assert Keep(p, ls)[i] in Keep(p, ls); }
    KeepAll(p, Keep(p, ls));
  }

  /** A later upsert of the key overrides an earlier one; so twice the same is once. */
  lemma LaterUpsertOverrides(ls: seq<string>, v: Var, w: Var)
    requires v.key == w.key
    ensures Upserted(Upserted(ls, v), w) == Upserted(ls, w)
  {
    AssignHasKey(v);
    if Assigns(ls, v.key) {
      var a, l, b := SplitAtFirst(ls, v.key);
      var kept := Keep(NotOfKey(v.key), b);
      UpsertedInPlace(a, l, b, v);
      UpsertedInPlace(a, l, b, w);
      UpsertedInPlace(a, Assign(v), kept, w);
      KeepTwice(NotOfKey(v.key), b);
    } else {
      UpsertedInPlace(ls, "", [], v);
      UpsertedInPlace(ls, "", [], w);
      UpsertedInPlace(ls, Assign(v), [], w);
      assert ls + [Assign(v)] + [] == ls + [Assign(v)];
      assert ls + [Assign(w)] + [] == ls + [Assign(w)];
    }
  }

  /** What an upsert of the key keeps before and after the new line, whatever the value. */
  lemma AroundUpsert(ls: seq<string>, k: string) returns (a: seq<string>, b: seq<string>)
    ensures forall v: Var | v.key == k :: Upserted(ls, v) == a + [Assign(v)] + b
    ensures a + b == Keep(NotOfKey(k), ls)
    ensures !Assigns(ls, k) ==> a == ls && b == []
  {
    var v := Var(k, "");
    if Assigns(ls, k) {
      var l, rest;
      a, l, rest := SplitAtFirst(ls, k);
      b := Keep(NotOfKey(k), rest);
      forall v: Var | v.key == k ensures Upserted(ls, v) == a + [Assign(v)] + b { UpsertedInPlace(a, l, rest, v); }
      NoneOfKey(a, k);
      KeepConcat(NotOfKey(k), a + [l], rest);
      KeepConcat(NotOfKey(k), a, [l]);
      assert [l][..0] == [] && Keep(NotOfKey(k), [l]) == [];
    } else {
      a, b := ls, [];
      forall v: Var | v.key == k ensures Upserted(ls, v) == a + [Assign(v)] + b { UpsertedInPlace(ls, "", [], v); }
      NoneOfKey(ls, k);
    }
  }

  lemma NoneOfKey(ls: seq<string>, k: string)
    requires !Assigns(ls, k)
    ensures Keep(NotOfKey(k), ls) == ls && Keep(OfKey(k), ls) == []
  {
    AssignsAnywhere(ls, k);
    KeepAll(NotOfKey(k), ls);
    KeepNone(OfKey(k), ls);
  }

  /** The first line of an assignment assigns the key, unless the key holds a newline: then no line does. */
  lemma FirstRawLine(v: Var)
    ensures OneLine(v.key) ==> HasKey(v.key, RawLines(Assign(v))[0])
  {
    var s := Assign(v);
    var n := LineLength(s);
    if OneLine(v.key) {
      AssignHasKey(v);
      assert forall i | 0 <= i < |v.key| + 1 :: s[i] == (v.key + "=")[i];
      assert n > |v.key|;
      assert s[..n][..|v.key| + 1] == v.key + "=";
    }
  }

  lemma LongKeyIsNowhere(ls: seq<string>, k: string)
    requires !OneLine(k) && forall i | 0 <= i < |ls| :: OneLine(ls[i])
    ensures !Assigns(ls, k)
  {
    AssignsAnywhere(ls, k);
    forall l | l in ls ensures !HasKey(k, l) {
      var i :| 0 <= i < |k| && k[i] == '\n';
      assert OneLine(l);
      if |l| > i { assert l[i] != (k + "=")[i]; }
    }
  }
}
