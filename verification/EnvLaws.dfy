/** Laws of the single-variable `.env` editors on whole files. */
module EnvLaws {
  import opened Texts
  import opened EnvFile
  import opened EnvEdit

  function UpsertedFile(content: string, v: Var): string { Unlines(Upserted(Lines(content), v)) }

  predicate CrFree(ls: seq<string>) { forall i | 0 <= i < |ls| :: !EndsInCr(ls[i]) }

  predicate IsOneLine(v: Var) { OneLine(v.key) && OneLine(v.value) }

  // ---------------------------------------------------------------- what re-reading a file does to its lines

  lemma StripKeepsKey(k: string, l: string)
    ensures HasKey(k, StripCr(l)) <==> HasKey(k, l)
  {
    if HasKey(k, l) { assert l[|k|] == '='; }
  }

  lemma StrippedConcat(a: seq<string>, b: seq<string>)
    ensures Stripped(a + b) == Stripped(a) + Stripped(b)
  {
  }

  lemma {:induction false} WalkedStripped(ls: seq<string>, v: Var)
    ensures Walked(Stripped(ls), v) == Stripped(Walked(ls, v)) && Assigns(Stripped(ls), v.key) == Assigns(ls, v.key)
  {
    if ls != [] {
      var front, l := ls[..|ls| - 1], ls[|ls| - 1];
      assert Stripped(ls)[..|ls| - 1] == Stripped(front);
      WalkedStripped(front, v);
      StripKeepsKey(v.key, l);
      AssignHasKey(v);
      StrippedConcat(Walked(front, v), [l]);
      StrippedConcat(Walked(front, v), [Assign(v)]);
    }
  }

  lemma UpsertedStripped(ls: seq<string>, v: Var)
    ensures Upserted(Stripped(ls), v) == Stripped(Upserted(ls, v))
  {
    WalkedStripped(ls, v);
    AssignHasKey(v);
    StrippedConcat(Walked(ls, v), [Assign(v)]);
  }

  lemma {:induction false} KeepStripped(k: string, ls: seq<string>)
    ensures Keep(NotOfKey(k), Stripped(ls)) == Stripped(Keep(NotOfKey(k), ls))
  {
    if ls != [] {
      var front, l := ls[..|ls| - 1], ls[|ls| - 1];
      assert Stripped(ls)[..|ls| - 1] == Stripped(front);
      KeepStripped(k, front);
      StripKeepsKey(k, l);
      StrippedConcat(Keep(NotOfKey(k), front), [l]);
    }
  }

  lemma StrippedIsSame(ls: seq<string>)
    ensures Stripped(ls) == ls <==> CrFree(ls)
  {
    if Stripped(ls) == ls {
      forall i | 0 <= i < |ls| ensures !EndsInCr(ls[i]) { assert Stripped(ls)[i] == ls[i]; }
    }
  }

  lemma LinesAfterUpsert(content: string, v: Var)
    ensures Lines(UpsertedFile(content, v)) == Stripped(Raws(Upserted(Lines(content), v)))
  {
    LinesOfWritten(Upserted(Lines(content), v));
  }

  // ---------------------------------------------------------------- overriding

  /** The key is one line, and every line of the assignment assigns it. */
  predicate AllOfKey(v: Var) {
    OneLine(v.key) && Keep(NotOfKey(v.key), RawLines(Assign(v))) == []
  }

  /** Writing one text between lines: the lines around it show. */
  lemma AroundShows(a: seq<string>, b: seq<string>, t: string, a': seq<string>, b': seq<string>)
    requires forall i | 0 <= i < |a + b| :: OneLine((a + b)[i])
    requires forall i | 0 <= i < |a' + b'| :: OneLine((a' + b')[i])
    requires |a| == |a'|
    ensures Unlines(a + [t] + b) == Unlines(a' + [t] + b') <==> a == a' && b == b'
  {
    RawsAround(a, b, t);
    RawsAround(a', b', t);
    WrittenAlike(a + [t] + b, a' + [t] + b');
    var x, y := a + RawLines(t) + b, a' + RawLines(t) + b';
    if x == y {
      assert x[..|a|] == a && y[..|a|] == a';
      assert x[|a| + |RawLines(t)|..] == b && y[|a| + |RawLines(t)|..] == b';
    }
  }

  lemma RawsAround(a: seq<string>, b: seq<string>, t: string)
    requires forall i | 0 <= i < |a + b| :: OneLine((a + b)[i])
    ensures Raws(a + [t] + b) == a + RawLines(t) + b
  {
    PartsAreLines(a, b);
    RawsConcat(a + [t], b);
    RawsConcat(a, [t]);
    RawsOfLines(a);
    RawsOfLines(b);
    RawsOfOne(t);
  }

  lemma PartsAreLines(a: seq<string>, b: seq<string>)
    requires forall i | 0 <= i < |a + b| :: OneLine((a + b)[i])
    ensures (forall i | 0 <= i < |a| :: OneLine(a[i])) && (forall i | 0 <= i < |b| :: OneLine(b[i]))
  {
    assert forall i | 0 <= i < |a| :: a[i] == (a + b)[i];
    assert forall i | 0 <= i < |b| :: b[i] == (a + b)[|a| + i];
  }

  lemma RawsOfOne(t: string)
    ensures Raws([t]) == RawLines(t)
  {
    assert [t][1..] == [];
  }

  lemma StrippedAround(a: seq<string>, b: seq<string>, t: seq<string>)
    ensures Stripped(a + t + b) == Stripped(a) + Stripped(t) + Stripped(b)
  {
  }

  /** The lines read after an upsert, in three parts, when the key is one line: those before, the assignment's own,
      and those after. */
  lemma LinesInParts(content: string, v: Var) returns (a: seq<string>, t: seq<string>, b: seq<string>)
    ensures a + b == Keep(NotOfKey(v.key), Lines(content)) && t == Stripped(RawLines(Assign(v)))
    ensures forall w: Var | w.key == v.key :: Upserted(Lines(content), w) == a + [Assign(w)] + b
    ensures Lines(UpsertedFile(content, v)) == Stripped(a) + t + Stripped(b)
    ensures forall i | 0 <= i < |a + b| :: OneLine((a + b)[i])
    ensures !Assigns(Lines(content), v.key) ==> a == Lines(content) && b == []
  {
    a, b := AroundUpsert(Lines(content), v.key);
    t := Stripped(RawLines(Assign(v)));
    KeptIsNewlineFree(NotOfKey(v.key), Lines(content));
    LinesAfterUpsert(content, v);
    RawsAround(a, b, Assign(v));
    StrippedAround(a, b, RawLines(Assign(v)));
  }

  lemma CrFreeInParts(a: seq<string>, b: seq<string>)
    ensures CrFree(a + b) <==> Stripped(a) == a && Stripped(b) == b
  {
    StrippedIsSame(a + b);
    StrippedIsSame(a);
    StrippedIsSame(b);
    StrippedConcat(a, b);
    if CrFree(a + b) {
      assert forall i | 0 <= i < |a| :: a[i] == (a + b)[i];
      assert forall i | 0 <= i < |b| :: b[i] == (a + b)[|a| + i];
    }
  }

  lemma NothingOfOthers(k: string, ls: seq<string>)
    ensures Keep(NotOfKey(k), Stripped(ls)) == [] <==> Keep(NotOfKey(k), ls) == []
  {
    KeepStripped(k, ls);
  }

  lemma KeepTail(k: string, t: seq<string>)
    requires t != [] && HasKey(k, t[0])
    ensures Keep(NotOfKey(k), t[1..]) == Keep(NotOfKey(k), t)
  {
    KeepConcat(NotOfKey(k), [t[0]], t[1..]);
    KeepNone(NotOfKey(k), [t[0]]);
    assert t == [t[0]] + t[1..];
  }

  lemma FirstInMiddle(a: seq<string>, t: seq<string>, b: seq<string>)
    requires t != []
    ensures a + t + b == a + [t[0]] + (t[1..] + b)
  {
  }

  /** A second upsert of the key, on the lines of the first in parts. */
  lemma UpsertAgain(a: seq<string>, t: seq<string>, b: seq<string>, v: Var)
    requires !Assigns(a, v.key) && t != [] && HasKey(v.key, t[0]) && Keep(NotOfKey(v.key), b) == b
    ensures Upserted(a + t + b, v) == a + [Assign(v)] + (Keep(NotOfKey(v.key), t) + b)
  {
    FirstInMiddle(a, t, b);
    UpsertedInPlace(a, t[0], t[1..] + b, v);
    KeepConcat(NotOfKey(v.key), t[1..], b);
    KeepTail(v.key, t);
  }

  lemma PartsWithout(a: seq<string>, b: seq<string>, k: string)
    requires forall l | l in a + b :: !HasKey(k, l)
    ensures !Assigns(Stripped(a), k) && Keep(NotOfKey(k), Stripped(b)) == Stripped(b)
    ensures Keep(NotOfKey(k), Stripped(a)) == Stripped(a)
  {
    forall l | l in Stripped(a) || l in Stripped(b) ensures !HasKey(k, l) {
      if l in Stripped(a) {
        var i :| 0 <= i < |a| && StripCr(a[i]) == l;
        assert a[i] == (a + b)[i];
        StripKeepsKey(k, a[i]);
      } else {
        var i :| 0 <= i < |b| && StripCr(b[i]) == l;
        assert b[i] == (a + b)[|a| + i];
        StripKeepsKey(k, b[i]);
      }
    }
    AssignsAnywhere(Stripped(a), k);
    KeepAll(NotOfKey(k), Stripped(a));
    KeepAll(NotOfKey(k), Stripped(b));
  }

  /** On files, a later upsert of a key overrides an earlier one exactly when every line of the earlier assignment
      assigns the key, and no line of another key still ends in a carriage return once it is read: the other lines
      of a value are taken for lines of the file, and a carriage return is lost at each rewriting. With `w` the same
      as `v` this says when upserting twice is upserting once. */
  lemma FileUpsertOverrides(content: string, v: Var, w: Var)
    requires v.key == w.key
    ensures UpsertedFile(UpsertedFile(content, v), w) == UpsertedFile(content, w) <==>
            AllOfKey(v) && CrFree(Keep(NotOfKey(v.key), Lines(content)))
  {
    if OneLine(v.key) {
      ShortKeyOverrides(content, v, w);
    } else {
      LongKeyGrows(content, v, w);
    }
  }

  /** The two files agree exactly when nothing is left over and nothing is stripped. */
  lemma LeftOver(a: seq<string>, more: seq<string>, b: seq<string>, t: string)
    requires forall i | 0 <= i < |a + b| :: OneLine((a + b)[i])
    requires forall i | 0 <= i < |more| :: OneLine(more[i])
    ensures Unlines(Stripped(a) + [t] + (more + Stripped(b))) == Unlines(a + [t] + b) <==> more == [] && CrFree(a + b)
  {
    StrippedAreLines(a, b, more);
    AroundShows(Stripped(a), more + Stripped(b), t, a, b);
    CrFreeInParts(a, b);
    if more + Stripped(b) == b { assert |more| == 0; }
    if more == [] { assert more + Stripped(b) == Stripped(b); }
  }

  lemma UpsertedTwice(content: string, v: Var, w: Var) returns (a: seq<string>, more: seq<string>, b: seq<string>)
    requires v.key == w.key && OneLine(v.key)
    ensures a + b == Keep(NotOfKey(v.key), Lines(content)) && forall i | 0 <= i < |a + b| :: OneLine((a + b)[i])
    ensures (forall i | 0 <= i < |more| :: OneLine(more[i])) && (more == [] <==> AllOfKey(v))
    ensures UpsertedFile(content, w) == Unlines(a + [Assign(w)] + b)
    ensures UpsertedFile(UpsertedFile(content, v), w) == Unlines(Stripped(a) + [Assign(w)] + (more + Stripped(b)))
  {
    var t;
    a, t, b := LinesInParts(content, v);
    more := LeftOfAssignment(v);
    PartsWithout(a, b, v.key);
    UpsertAgain(Stripped(a), t, Stripped(b), w);
  }

  /** The lines of an assignment, read, that are not taken for the key's. */
  lemma LeftOfAssignment(v: Var) returns (more: seq<string>)
    requires OneLine(v.key)
    ensures var t := Stripped(RawLines(Assign(v)));
            t != [] && HasKey(v.key, t[0]) && more == Keep(NotOfKey(v.key), t)
    ensures (forall i | 0 <= i < |more| :: OneLine(more[i])) && (more == [] <==> AllOfKey(v))
  {
    var t := Stripped(RawLines(Assign(v)));
    FirstRawLine(v);
    StripKeepsKey(v.key, RawLines(Assign(v))[0]);
    more := Keep(NotOfKey(v.key), t);
    KeptIsNewlineFree(NotOfKey(v.key), t);
    NothingOfOthers(v.key, RawLines(Assign(v)));
  }

  lemma ShortKeyOverrides(content: string, v: Var, w: Var)
    requires v.key == w.key && OneLine(v.key)
    ensures UpsertedFile(UpsertedFile(content, v), w) == UpsertedFile(content, w) <==>
            AllOfKey(v) && CrFree(Keep(NotOfKey(v.key), Lines(content)))
  {
    var a, more, b := UpsertedTwice(content, v, w);
    LeftOver(a, more, b, Assign(w));
  }

  lemma StrippedAreLines(a: seq<string>, b: seq<string>, more: seq<string>)
    requires forall i | 0 <= i < |a + b| :: OneLine((a + b)[i])
    requires forall i | 0 <= i < |more| :: OneLine(more[i])
    ensures var c := Stripped(a) + (more + Stripped(b)); forall i | 0 <= i < |c| :: OneLine(c[i])
  {
    assert forall i | 0 <= i < |a| :: a[i] == (a + b)[i];
    assert forall i | 0 <= i < |b| :: b[i] == (a + b)[|a| + i];
  }

  lemma LongKeyGrows(content: string, v: Var, w: Var)
    requires v.key == w.key && !OneLine(v.key)
    ensures UpsertedFile(UpsertedFile(content, v), w) != UpsertedFile(content, w)
  {
    var ls, once := Lines(content), Lines(UpsertedFile(content, v));
    LongKeyIsNowhere(ls, v.key);
    LongKeyIsNowhere(once, v.key);
    UpsertedInPlace(ls, "", [], v);
    UpsertedInPlace(ls, "", [], w);
    UpsertedInPlace(once, "", [], w);
    LinesAfterUpsert(content, v);
    RawsConcat(ls, [Assign(v)]);
    RawsOfLines(ls);
    assert |once| > |ls|;
    WrittenAlike(once + [Assign(w)], ls + [Assign(w)]);
    RawsConcat(once, [Assign(w)]);
    RawsConcat(ls, [Assign(w)]);
    RawsOfLines(once);
  }

  /** Every line ends in a newline with no carriage return before it. */
  predicate Tidy(content: string)
    decreases |content|
  {
    content == "" ||
      var n := LineLength(content);
      n < |content| && !EndsInCr(content[..n]) && Tidy(content[n + 1..])
  }

  lemma LastLineGainsNewline(content: string)
    requires content != "" && LineLength(content) == |content|
    ensures Unlines(Stripped(Lines(content))) != content
  {
    assert content[..|content|] == content;
    var l := StripCr(content);
    assert Stripped([content]) == [l] && [l][1..] == [];
    assert Unlines([l]) == l + "\n" + "";
    assert (l + "\n" + "")[|l|] == '\n';
  }

  lemma UnlinesStripped(l: string, ls: seq<string>)
    ensures Unlines(Stripped([l] + ls)) == StripCr(l) + "\n" + Unlines(Stripped(ls))
  {
    assert Stripped([l] + ls) == [StripCr(l)] + Stripped(ls);
    assert ([StripCr(l)] + Stripped(ls))[1..] == Stripped(ls);
  }

  lemma LineComesBack(l: string, rest: string, again: string)
    requires OneLine(l)
    ensures StripCr(StripCr(l)) + "\n" + again == l + "\n" + rest <==> !EndsInCr(l) && again == rest
  {
    if StripCr(StripCr(l)) + "\n" + again == l + "\n" + rest {
      FirstLineAgrees(StripCr(StripCr(l)), again, l, rest);
    }
  }

  lemma SplitAtNewline(content: string, n: nat)
    requires n < |content| && content[n] == '\n'
    ensures content == content[..n] + "\n" + content[n + 1..]
  {
  }

  lemma FirstLineRead(content: string, n: nat)
    requires content != "" && n == LineLength(content) < |content|
    ensures Lines(content) == [StripCr(content[..n])] + Lines(content[n + 1..])
  {
  }

  lemma WrittenBack(content: string, n: nat)
    requires content != "" && n == LineLength(content) < |content|
    ensures Unlines(Stripped(Lines(content))) ==
            StripCr(StripCr(content[..n])) + "\n" + Unlines(Stripped(Lines(content[n + 1..])))
  {
    var ls := Lines(content[n + 1..]);
    FirstLineRead(content, n);
    UnlinesStripped(StripCr(content[..n]), ls);
  }

  /** Writing back the lines read gives the file itself exactly when it is tidy. */
  lemma {:induction false} TidyIsRewritten(content: string)
    ensures Unlines(Stripped(Lines(content))) == content <==> Tidy(content)
    decreases |content|
  {
    if content != "" {
      var n := LineLength(content);
      if n == |content| {
        LastLineGainsNewline(content);
      } else {
        SplitAtNewline(content, n);
        WrittenBack(content, n);
        TidyIsRewritten(content[n + 1..]);
        LineComesBack(content[..n], content[n + 1..], Unlines(Stripped(Lines(content[n + 1..]))));
      }
    }
  }

  lemma FirstLineAgrees(a: string, x: string, b: string, y: string)
    requires OneLine(a) && OneLine(b) && a + "\n" + x == b + "\n" + y
    ensures a == b && x == y
  {
    LineLengthOf(a, x);
    LineLengthOf(b, y);
    assert (a + "\n" + x)[..|a|] == a && (b + "\n" + y)[..|b|] == b;
    assert (a + "\n" + x)[|a| + 1..] == x && (b + "\n" + y)[|b| + 1..] == y;
  }

  /** On files, removing a key after upserting it is the same as removing it from the original exactly when
      every line of the assignment assigns the key, and either the key was there and no other line still ends in a
      carriage return, or it was not there and the file was tidy: a removal that finds nothing does not rewrite the
      file, an upsert always does. */
  lemma FileRemoveAfterUpsert(content: string, v: Var)
    ensures Removed(UpsertedFile(content, v), v.key) == Removed(content, v.key) <==>
            AllOfKey(v) &&
            if Assigns(Lines(content), v.key) then CrFree(Keep(NotOfKey(v.key), Lines(content))) else Tidy(content)
  {
    if OneLine(v.key) {
      ShortKeyRemoved(content, v);
    } else {
      LongKeyStays(content, v);
    }
  }

  /** Removing the key from lines in parts. */
  lemma RemoveFromParts(a: seq<string>, t: seq<string>, b: seq<string>, k: string)
    requires t != [] && HasKey(k, t[0]) && Keep(NotOfKey(k), a) == a && Keep(NotOfKey(k), b) == b
    ensures Assigns(a + t + b, k) && Keep(NotOfKey(k), a + t + b) == a + (Keep(NotOfKey(k), t) + b)
  {
    AssignsInside(a, t, b, k);
    KeepOfParts(NotOfKey(k), a, t, b);
  }

  lemma AssignsInside(a: seq<string>, t: seq<string>, b: seq<string>, k: string)
    requires t != [] && HasKey(k, t[0])
    ensures Assigns(a + t + b, k)
  {
    assert (a + t + b)[|a|] == t[0];
    AssignsAnywhere(a + t + b, k);
  }

  lemma KeepOfParts(p: string -> bool, a: seq<string>, t: seq<string>, b: seq<string>)
    ensures Keep(p, a + t + b) == Keep(p, a) + (Keep(p, t) + Keep(p, b))
  {
    KeepConcat(p, a + t, b);
    KeepConcat(p, a, t);
    InTwo(Keep(p, a), Keep(p, t), Keep(p, b));
  }

  lemma InTwo(x: seq<string>, y: seq<string>, z: seq<string>)
    ensures x + y + z == x + (y + z)
  {
  }

  lemma RemovedInParts(content: string, v: Var) returns (a: seq<string>, more: seq<string>, b: seq<string>)
    requires OneLine(v.key)
    ensures a + b == Keep(NotOfKey(v.key), Lines(content))
        && (!Assigns(Lines(content), v.key) ==> a == Lines(content) && b == [])
    ensures forall i | 0 <= i < |a + b| :: OneLine((a + b)[i])
    ensures (forall i | 0 <= i < |more| :: OneLine(more[i])) && (more == [] <==> AllOfKey(v))
    ensures Removed(UpsertedFile(content, v), v.key) == Unlines(Stripped(a) + (more + Stripped(b)))
  {
    var t;
    a, t, b := LinesInParts(content, v);
    more := LeftOfAssignment(v);
    PartsWithout(a, b, v.key);
    RemoveFromParts(Stripped(a), t, Stripped(b), v.key);
  }

  lemma ShortKeyRemoved(content: string, v: Var)
    requires OneLine(v.key)
    ensures Removed(UpsertedFile(content, v), v.key) == Removed(content, v.key) <==>
            AllOfKey(v) &&
            if Assigns(Lines(content), v.key) then CrFree(Keep(NotOfKey(v.key), Lines(content))) else Tidy(content)
  {
    var a, more, b := RemovedInParts(content, v);
    var left := Stripped(a) + (more + Stripped(b));
    StrippedAreLines(a, b, more);
    if Assigns(Lines(content), v.key) {
      if Unlines(left) == Unlines(a + b) {
        UnlinesIsInjective(left, a + b);
        assert |more| == 0;
      }
      CrFreeInParts(a, b);
      if more == [] { PartsAgree(a, b); }
    } else if more == [] {
      assert left == Stripped(Lines(content));
      TidyIsRewritten(content);
    } else {
      LinesOfUnlines(left);
      assert |Lines(Unlines(left))| > |Lines(content)|;
    }
  }

  lemma PartsAgree(a: seq<string>, b: seq<string>)
    ensures Stripped(a) + ([] + Stripped(b)) == a + b <==> Stripped(a) == a && Stripped(b) == b
  {
    var x, y := Stripped(a) + ([] + Stripped(b)), a + b;
    if x == y {
      assert x[..|a|] == Stripped(a) && y[..|a|] == a && x[|a|..] == Stripped(b) && y[|a|..] == b;
    }
  }

  lemma LongKeyStays(content: string, v: Var)
    requires !OneLine(v.key)
    ensures Removed(UpsertedFile(content, v), v.key) != Removed(content, v.key)
  {
    var ls, once := Lines(content), Lines(UpsertedFile(content, v));
    LongKeyIsNowhere(ls, v.key);
    LongKeyIsNowhere(once, v.key);
    UpsertedInPlace(ls, "", [], v);
    LinesAfterUpsert(content, v);
    RawsConcat(ls, [Assign(v)]);
    RawsOfLines(ls);
    assert |once| > |ls|;
  }

  lemma KeptIsNewlineFree(p: string -> bool, ls: seq<string>)
    requires forall i | 0 <= i < |ls| :: OneLine(ls[i])
    ensures forall i | 0 <= i < |Keep(p, ls)| :: OneLine(Keep(p, ls)[i])
  {
    forall i | 0 <= i < |Keep(p, ls)| ensures OneLine(Keep(p, ls)[i]) { assert Keep(p, ls)[i] in Keep(p, ls); }
  }

  // ---------------------------------------------------------------- files on which the laws fail

  lemma OneLineIsAllOfKey(v: Var)
    requires IsOneLine(v)
    ensures AllOfKey(v)
  {
    AssignHasKey(v);
    LineLengthOfOneLine(Assign(v));
    var l: string := Assign(v);
    var ls: seq<string> := [l];
    assert l[..|l|] == l && RawLines(l) == ls;
    KeepNone(NotOfKey(v.key), ls);
  }

  /** A comment line with two carriage returns loses one at each rewriting. */
  lemma UpsertTwiceDiffers(v: Var)
    requires v.key != "" && v.key[0] != 'a'
    ensures UpsertedFile(UpsertedFile("a\r\r\n", v), v) != UpsertedFile("a\r\r\n", v)
  {
    var content, l := "a\r\r\n", "a\r";
    assert content == "a\r\r" + "\n" + "";
    LineLengthOf("a\r\r", "");
    assert content[..3] == "a\r\r" && content[4..] == "" && StripCr("a\r\r") == l;
    assert Lines(content) == [l] + Lines("") == [l];
    OtherLineIsKept(l, v);
    assert Keep(NotOfKey(v.key), [l])[0] == l && EndsInCr(l);
    FileUpsertOverrides(content, v, v);
  }

  lemma OtherLineIsKept(l: string, v: Var)
    requires v.key != "" && l != "" && v.key[0] != l[0]
    ensures Keep(NotOfKey(v.key), [l]) == [l] && !Assigns([l], v.key)
  {
    assert (v.key + "=")[0] == v.key[0];
    assert [l][..0] == [];
  }

  /** A last line without a newline gains one. */
  lemma RemoveAfterUpsertDiffers(v: Var)
    requires v.key != "" && v.key[0] != 'a'
    ensures Removed(UpsertedFile("a", v), v.key) != Removed("a", v.key)
  {
    assert "a"[1..] == "" && LineLength("a") == 1 && Lines("a") == ["a"];
    OtherLineIsKept("a", v);
    FileRemoveAfterUpsert("a", v);
  }

  /** A value of two lines: its second line is left over when the key is written again, and when it is removed. */
  lemma SecondLineStays(content: string, v: Var)
    requires v.key == "K" && v.value == "a\nb"
    ensures UpsertedFile(UpsertedFile(content, v), v) != UpsertedFile(content, v)
    ensures Removed(UpsertedFile(content, v), v.key) != Removed(content, v.key)
  {
    SecondLineIsOther(v, "a", "b");
    FileUpsertOverrides(content, v, v);
    FileRemoveAfterUpsert(content, v);
  }

  lemma {:induction false} EscapedConcat(x: string, y: string)
    ensures EscapedChars(x + y) == EscapedChars(x) + EscapedChars(y)
  {
    if x == "" {
      assert x + y == y;
    } else {
      assert (x + y)[1..] == x[1..] + y;
      EscapedConcat(x[1..], y);
    }
  }

  lemma RawLinesOfTwo(first: string, second: string)
    requires OneLine(first) && OneLine(second)
    ensures RawLines(first + "\n" + second) == [first, second]
  {
    var s := first + "\n" + second;
    LineLengthOf(first, second);
    LineLengthOfOneLine(second);
    assert s[..|first|] == first && s[|first| + 1..] == second && second[..|second|] == second;
  }

  lemma AssignOfTwo(v: Var, x: string, y: string)
    requires v.value == x + "\n" + y
    ensures Assign(v) == (v.key + "=\"" + EscapedChars(x)) + "\n" + (EscapedChars(y) + "\"")
  {
    EscapeIsCharwise(v.value);
    EscapedOfTwo(x, y);
    Quoted(v.key, EscapedChars(x), EscapedChars(y));
  }

  lemma Quoted(k: string, x: string, y: string)
    ensures k + "=\"" + (x + "\n" + y) + "\"" == (k + "=\"" + x) + "\n" + (y + "\"")
  {
  }

  lemma EscapedOfTwo(x: string, y: string)
    ensures EscapedChars(x + "\n" + y) == EscapedChars(x) + "\n" + EscapedChars(y)
  {
    EscapedConcat(x + "\n", y);
    EscapedConcat(x, "\n");
    assert "\n"[1..] == "" && EscapedChars("\n") == "\n";
  }

  lemma SecondLineIsOther(v: Var, x: string, y: string)
    requires v.value == x + "\n" + y && OneLine(v.key) && OneLine(x) && OneLine(y) && v.key != "" && y != ""
    requires y[0] != v.key[0] && y[0] != '"' && y[0] != '\\'
    ensures !AllOfKey(v)
  {
    var first, second := v.key + "=\"" + EscapedChars(x), EscapedChars(y) + "\"";
    AssignOfTwo(v, x, y);
    EscapeAddsNoNewline(x);
    EscapeAddsNoNewline(y);
    RawLinesOfTwo(first, second);
    OtherFirstChar(v.key, second, y);
    assert second in [first, second];
    assert second in Keep(NotOfKey(v.key), RawLines(Assign(v)));
  }

  lemma OtherFirstChar(k: string, second: string, y: string)
    requires second == EscapedChars(y) + "\"" && k != "" && y != "" && y[0] != k[0] && y[0] != '"' && y[0] != '\\'
    ensures !HasKey(k, second)
  {
    assert second[0] == y[0] && (k + "=")[0] == k[0];
  }
}
