/** What a reader of the `.env` file sees after an edit of a file that was written as a list of variables. */
module EnvReader {
  import opened Json
  import opened Texts
  import opened EnvFile
  import opened EnvEdit
  import opened EnvLaws
  import opened EnvBatch
  import opened EnvManyLines

  // ---------------------------------------------------------------- lists of variables

  function Without(vars: seq<Var>, k: string): seq<Var> {
    if vars == [] then []
    else (if vars[0].key == k then [] else [vars[0]]) + Without(vars[1..], k)
  }

  function Only(vars: seq<Var>, k: string): seq<Var> {
    if vars == [] then []
    else (if vars[0].key == k then [vars[0]] else []) + Only(vars[1..], k)
  }

  /** The variable in the place of the first of its key, the others of the key dropped; at the end if there is none. */
  function Replaced(vars: seq<Var>, v: Var): seq<Var> {
    if vars == [] then [v]
    else if vars[0].key == v.key then [v] + Without(vars[1..], v.key)
    else [vars[0]] + Replaced(vars[1..], v)
  }

  /** The lines written for variables. */
  function Written(vars: seq<Var>): (ls: seq<string>)
    ensures forall i | 0 <= i < |ls| :: OneLine(ls[i])
  {
    Raws(Assigned(vars))
  }

  lemma {:induction false} PrintedIsWritten(vars: seq<Var>)
    ensures Printed(vars) == Unlines(Assigned(vars))
  {
    if vars != [] {
      assert Assigned(vars)[1..] == Assigned(vars[1..]);
      PrintedIsWritten(vars[1..]);
    }
  }

  lemma LinesOfPrinted(vars: seq<Var>)
    ensures Lines(Printed(vars)) == Stripped(Written(vars))
  {
    PrintedIsWritten(vars);
    LinesOfWritten(Assigned(vars));
  }

  lemma WrittenCons(v: Var, vars: seq<Var>)
    ensures Written([v] + vars) == RawLines(Assign(v)) + Written(vars)
  {
    assert Assigned([v] + vars) == [Assign(v)] + Assigned(vars);
    RawsConcat([Assign(v)], Assigned(vars));
    RawsOfOne(Assign(v));
  }

  lemma WrittenHead(vars: seq<Var>)
    requires vars != []
    ensures Written(vars) == RawLines(Assign(vars[0])) + Written(vars[1..])
  {
    assert vars == [vars[0]] + vars[1..];
    WrittenCons(vars[0], vars[1..]);
  }

  // ---------------------------------------------------------------- the condition

  /** An edit of `k` leaves the lines of the other variables alone: none looks like a line of `k`, and none ends in a
      carriage return. */
  predicate OthersIntact(vars: seq<Var>, k: string) {
    CrFree(Written(Without(vars, k))) && Keep(OfKey(k), Written(Without(vars, k))) == []
  }

  /** And it drops every line of the variables of `k`. */
  predicate OwnDropped(vars: seq<Var>, k: string) {
    (Only(vars, k) != [] ==> OneLine(k)) && Keep(NotOfKey(k), Written(Only(vars, k))) == []
  }

  /** Lines kept of one more variable. */
  lemma KeptOfHead(p: string -> bool, vars: seq<Var>)
    requires vars != []
    ensures Keep(p, Written(vars)) == Keep(p, RawLines(Assign(vars[0]))) + Keep(p, Written(vars[1..]))
  {
    WrittenHead(vars);
    KeepConcat(p, RawLines(Assign(vars[0])), Written(vars[1..]));
  }

  lemma KeptOfCons(p: string -> bool, v: Var, vars: seq<Var>)
    ensures Keep(p, Written([v] + vars)) == Keep(p, RawLines(Assign(v))) + Keep(p, Written(vars))
  {
    WrittenCons(v, vars);
    KeepConcat(p, RawLines(Assign(v)), Written(vars));
  }

  lemma WithoutHead(vars: seq<Var>, k: string)
    requires vars != []
    ensures vars[0].key == k ==>
              Without(vars, k) == Without(vars[1..], k) && Only(vars, k) == [vars[0]] + Only(vars[1..], k)
    ensures vars[0].key != k ==>
              Without(vars, k) == [vars[0]] + Without(vars[1..], k) && Only(vars, k) == Only(vars[1..], k)
  {
  }

  /** One more part in front of all, and of the one or the other. */
  lemma KeptSum(x: seq<string>, all: seq<string>, a: seq<string>, b: seq<string>, all': seq<string>, a': seq<string>,
      b': seq<string>)
    requires all' == x + all && |all| == |a| + |b| && (b == [] ==> all == a)
    requires (a' == a && b' == x + b) || (a' == x + a && b' == b)
    ensures |all'| == |a'| + |b'| && (b' == [] ==> all' == a')
  {
  }

  lemma {:induction false} KeptOf(p: string -> bool, vars: seq<Var>, k: string)
    ensures |Keep(p, Written(vars))| == |Keep(p, Written(Without(vars, k)))| + |Keep(p, Written(Only(vars, k)))|
    ensures Keep(p, Written(Only(vars, k))) == [] ==> Keep(p, Written(vars)) == Keep(p, Written(Without(vars, k)))
  {
    if vars != [] {
      var x, rest := vars[0], vars[1..];
      KeptOf(p, rest, k);
      KeptOfHead(p, vars);
      WithoutHead(vars, k);
      if x.key == k { KeptOfCons(p, x, Only(rest, k)); } else { KeptOfCons(p, x, Without(rest, k)); }
      KeptSum(Keep(p, RawLines(Assign(x))), Keep(p, Written(rest)), Keep(p, Written(Without(rest, k))),
        Keep(p, Written(Only(rest, k))), Keep(p, Written(vars)), Keep(p, Written(Without(vars, k))),
        Keep(p, Written(Only(vars, k))));
    }
  }

  // ---------------------------------------------------------------- the file after an upsert

  lemma {:induction false} ReplacedNone(vars: seq<Var>, v: Var)
    requires Only(vars, v.key) == []
    ensures Replaced(vars, v) == vars + [v] && Without(vars, v.key) == vars
  {
    if vars != [] {
      WithoutHead(vars, v.key);
      ReplacedNone(vars[1..], v);
    }
  }

  /** The first variable of the key, between the others. */
  lemma {:induction false} FirstOfKey(vars: seq<Var>, v: Var) returns (before: seq<Var>, u: Var, later: seq<Var>)
    requires Only(vars, v.key) != []
    ensures vars == before + [u] + later && u.key == v.key
    ensures Replaced(vars, v) == before + [v] + Without(later, v.key)
    ensures Without(vars, v.key) == before + Without(later, v.key)
  {
    WithoutHead(vars, v.key);
    if vars[0].key == v.key {
      before, u, later := [], vars[0], vars[1..];
    } else {
      before, u, later := FirstOfKey(vars[1..], v);
      OneInFront(vars, v, before, u, later, Without(later, v.key));
      before := [vars[0]] + before;
    }
  }

  lemma OneInFront(vars: seq<Var>, v: Var, before: seq<Var>, u: Var, later: seq<Var>, others: seq<Var>)
    requires vars != [] && vars[0].key != v.key && vars[1..] == before + [u] + later
    requires Replaced(vars[1..], v) == before + [v] + others && Without(vars[1..], v.key) == before + others
    ensures var x := [vars[0]] + before;
            vars == x + [u] + later && Replaced(vars, v) == x + [v] + others && Without(vars, v.key) == x + others
  {
    InFront(vars[0], before, [u], later);
    InFront(vars[0], before, [v], others);
    InFront(vars[0], before, [], others);
    WithoutNoHead(vars, v, before + others);
    HeadAndRest(vars);
  }

  lemma HeadAndRest(vars: seq<Var>)
    requires vars != []
    ensures vars == [vars[0]] + vars[1..]
  {
  }

  lemma WithoutNoHead(vars: seq<Var>, v: Var, others: seq<Var>)
    requires vars != [] && vars[0].key != v.key && Without(vars[1..], v.key) == others
    ensures Without(vars, v.key) == [vars[0]] + others && Replaced(vars, v) == [vars[0]] + Replaced(vars[1..], v)
  {
  }

  lemma InFront(x: Var, a: seq<Var>, t: seq<Var>, b: seq<Var>)
    ensures [x] + (a + t + b) == ([x] + a) + t + b
    ensures t == [] ==> [x] + (a + b) == ([x] + a) + b
  {
  }

  lemma {:induction false} WrittenConcat(a: seq<Var>, b: seq<Var>)
    ensures Written(a + b) == Written(a) + Written(b)
  {
    assert Assigned(a + b) == Assigned(a) + Assigned(b);
    RawsConcat(Assigned(a), Assigned(b));
  }

  lemma WrittenAround(a: seq<Var>, v: Var, b: seq<Var>)
    ensures Written(a + [v] + b) == Written(a) + RawLines(Assign(v)) + Written(b)
  {
    WrittenConcat(a + [v], b);
    WrittenConcat(a, [v]);
    WrittenCons(v, []);
    assert [v] + [] == [v];
  }

  /** The lines kept by an edit of the key, read. */
  lemma KeptLines(vars: seq<Var>, k: string)
    ensures Keep(NotOfKey(k), Lines(Printed(vars))) == Stripped(Keep(NotOfKey(k), Written(vars)))
  {
    LinesOfPrinted(vars);
    KeepStripped(k, Written(vars));
  }

  lemma NoLinesOfKey(ls: seq<string>, k: string)
    requires Keep(OfKey(k), ls) == []
    ensures !Assigns(ls, k) && Keep(NotOfKey(k), ls) == ls
  {
    AssignsAnywhere(ls, k);
    forall l | l in ls ensures !HasKey(k, l) { assert l !in Keep(OfKey(k), ls); }
    NoneOfKey(ls, k);
  }

  /** When the others are intact and the own ones dropped, exactly the others' lines are kept. */
  lemma KeptAreOthers(vars: seq<Var>, k: string)
    requires OthersIntact(vars, k) && OwnDropped(vars, k)
    ensures Keep(NotOfKey(k), Lines(Printed(vars))) == Written(Without(vars, k))
  {
    KeptOf(NotOfKey(k), vars, k);
    NoLinesOfKey(Written(Without(vars, k)), k);
    KeptLines(vars, k);
    StrippedIsSame(Written(Without(vars, k)));
  }

  lemma FirstHalf(x: seq<string>, y: seq<string>, k: string)
    requires CrFree(x + y) && Keep(OfKey(k), x + y) == []
    ensures Stripped(x) == x && !Assigns(x, k) && Keep(NotOfKey(k), x) == x
  {
    CrFreeInParts(x, y);
    KeepConcat(OfKey(k), x, y);
    NoLinesOfKey(x, k);
  }

  lemma UpsertAppends(vars: seq<Var>, v: Var)
    requires OthersIntact(vars, v.key) && Only(vars, v.key) == []
    ensures UpsertedFile(Printed(vars), v) == Printed(Replaced(vars, v))
  {
    var ls := Written(vars);
    ReplacedNone(vars, v);
    NoLinesOfKey(ls, v.key);
    StrippedIsSame(ls);
    LinesOfPrinted(vars);
    UpsertedInPlace(ls, "", [], v);
    WrittenAround(vars, v, []);
    assert ls + [Assign(v)] == ls + [Assign(v)] + [] && vars + [v] == vars + [v] + [];
    SameWritten(vars, v, ls, []);
  }

  lemma UpsertReplaces(vars: seq<Var>, v: Var)
    requires OthersIntact(vars, v.key) && OwnDropped(vars, v.key) && Only(vars, v.key) != []
    ensures UpsertedFile(Printed(vars), v) == Printed(Replaced(vars, v))
  {
    var before, u, later := FirstOfKey(vars, v);
    var x, y := Written(before), Written(Without(later, v.key));
    WrittenConcat(before, Without(later, v.key));
    KeptAreOthers(vars, v.key);
    FirstHalf(x, y, v.key);
    LinesOfPrinted(vars);
    WrittenAround(before, u, later);
    StrippedAround(x, Written(later), RawLines(Assign(u)));
    UpsertInside(Lines(Printed(vars)), x, Stripped(RawLines(Assign(u))), Stripped(Written(later)), y, u, v);
    WrittenAround(before, v, Without(later, v.key));
    SameWritten(vars, v, x, y);
  }

  lemma UpsertInside(ls: seq<string>, x: seq<string>, t: seq<string>, later: seq<string>, y: seq<string>, u: Var,
                     v: Var)
    requires u.key == v.key && OneLine(u.key) && t == Stripped(RawLines(Assign(u)))
    requires Stripped(x) == x && !Assigns(x, v.key) && Keep(NotOfKey(v.key), x) == x
    requires ls == Stripped(x) + t + later && Keep(NotOfKey(v.key), ls) == x + y
    ensures Upserted(ls, v) == x + [Assign(v)] + y
  {
    var k := v.key;
    FirstRawLine(u);
    StripKeepsKey(k, RawLines(Assign(u))[0]);
    FirstInMiddle(x, t, later);
    UpsertedInPlace(x, t[0], t[1..] + later, v);
    KeepTail(k, t);
    KeepConcat(NotOfKey(k), t[1..], later);
    KeepOfParts(NotOfKey(k), x, t, later);
    SameParts(x, Keep(NotOfKey(k), t[1..] + later), x, y);
  }

  lemma SameWritten(vars: seq<Var>, v: Var, x: seq<string>, y: seq<string>)
    requires Upserted(Lines(Printed(vars)), v) == x + [Assign(v)] + y
    requires Written(Replaced(vars, v)) == x + RawLines(Assign(v)) + y
    requires forall i | 0 <= i < |x + y| :: OneLine((x + y)[i])
    ensures UpsertedFile(Printed(vars), v) == Printed(Replaced(vars, v))
  {
    RawsAround(x, y, Assign(v));
    PrintedIsWritten(Replaced(vars, v));
    WrittenAlike(x + [Assign(v)] + y, Assigned(Replaced(vars, v)));
  }

  lemma AroundReplaced(vars: seq<Var>, v: Var) returns (x: seq<string>, y: seq<string>)
    ensures Written(Replaced(vars, v)) == x + RawLines(Assign(v)) + y && x + y == Written(Without(vars, v.key))
  {
    if Only(vars, v.key) == [] {
      ReplacedNone(vars, v);
      x, y := Written(vars), [];
      WrittenAround(vars, v, []);
      assert vars + [v] == vars + [v] + [];
    } else {
      var before, u, later := FirstOfKey(vars, v);
      x, y := Written(before), Written(Without(later, v.key));
      WrittenAround(before, v, Without(later, v.key));
      WrittenConcat(before, Without(later, v.key));
    }
  }

  /** Two texts around the same lines: what is counted in them is as much. */
  lemma CountedAround(a: seq<string>, t: seq<string>, b: seq<string>, x: seq<string>, y: seq<string>, p: string -> bool)
    requires a + t + b == x + t + y
    ensures |a + b| == |x + y| && Total(a + b) == Total(x + y)
    ensures |Keep(p, a + b)| == |Keep(p, x + y)|
  {
    KeepOfParts(p, a, t, b);
    KeepOfParts(p, x, t, y);
    KeepConcat(p, a, b);
    KeepConcat(p, x, y);
    TotalOfParts(a, t, b);
    TotalOfParts(x, t, y);
    assert |a + t + b| == |a + b| + |t| && |x + t + y| == |x + y| + |t|;
  }

  lemma TotalOfParts(a: seq<string>, t: seq<string>, b: seq<string>)
    ensures Total(a + t + b) == Total(a + b) + Total(t)
  {
    TotalConcat(a + t, b);
    TotalConcat(a, t);
    TotalConcat(a, b);
  }

  /** If the file fits, the lines kept are those of the others, as they were written. */
  lemma FitsAround(vars: seq<Var>, v: Var) returns (kept: seq<string>)
    requires UpsertedFile(Printed(vars), v) == Printed(Replaced(vars, v))
    ensures kept == Keep(NotOfKey(v.key), Lines(Printed(vars)))
    ensures var others := Written(Without(vars, v.key));
            |kept| == |others| && Total(kept) == Total(others)
                && |Keep(OfKey(v.key), kept)| == |Keep(OfKey(v.key), others)|
  {
    var a, b := AroundUpsert(Lines(Printed(vars)), v.key);
    var x, y := AroundReplaced(vars, v);
    kept := a + b;
    KeptIsNewlineFree(NotOfKey(v.key), Lines(Printed(vars)));
    RawsAround(a, b, Assign(v));
    PrintedIsWritten(Replaced(vars, v));
    WrittenAlike(a + [Assign(v)] + b, Assigned(Replaced(vars, v)));
    CountedAround(a, RawLines(Assign(v)), b, x, y, OfKey(v.key));
  }

  lemma FitsOnlyIf(vars: seq<Var>, v: Var)
    requires UpsertedFile(Printed(vars), v) == Printed(Replaced(vars, v))
    ensures OthersIntact(vars, v.key) && OwnDropped(vars, v.key)
  {
    var k := v.key;
    var others := Written(Without(vars, k));
    var kept := FitsAround(vars, v);
    KeepNeither(Lines(Printed(vars)), k);
    assert Keep(OfKey(k), others) == [];
    NoLinesOfKey(others, k);
    KeptLines(vars, k);
    KeptOf(NotOfKey(k), vars, k);
    assert Keep(NotOfKey(k), Written(Only(vars, k))) == [];
    assert kept == Stripped(others);
    OnceShorter(others);
    ShorterTotal(Stripped(others), others);
    StrippedIsSame(others);
    OwnNeedsShortKey(vars, k);
  }

  lemma OnceShorter(ls: seq<string>)
    ensures Shorter(Stripped(ls), ls)
  {
  }

  lemma OwnNeedsShortKey(vars: seq<Var>, k: string)
    requires Keep(NotOfKey(k), Written(Only(vars, k))) == []
    ensures Only(vars, k) != [] ==> OneLine(k)
  {
    var own := Written(Only(vars, k));
    if !OneLine(k) {
      LongKeyIsNowhere(own, k);
      NoneOfKey(own, k);
      assert |own| >= |Assigned(Only(vars, k))|;
    }
  }

  // ---------------------------------------------------------------- what the reader sees

  /** After an upsert of a file written as a list of variables, the reader sees that list with the variable replaced
      or added exactly when no key has an equals sign, every line of the variables of the key assigns it, and no line
      of the others assigns it or ends in a carriage return. */
  lemma UpsertReads(vars: seq<Var>, v: Var)
    ensures ReadAll(UpsertedFile(Printed(vars), v)) == Some(Replaced(vars, v)) <==>
            EqualsFree(Replaced(vars, v)) && OthersIntact(vars, v.key) && OwnDropped(vars, v.key)
  {
    PrintedReadsBack(UpsertedFile(Printed(vars), v), Replaced(vars, v));
    if UpsertedFile(Printed(vars), v) == Printed(Replaced(vars, v)) { FitsOnlyIf(vars, v); }
    if OthersIntact(vars, v.key) && OwnDropped(vars, v.key) {
      if Only(vars, v.key) == [] { UpsertAppends(vars, v); } else { UpsertReplaces(vars, v); }
    }
  }

  lemma KeptAreOnlyOthers(vars: seq<Var>, k: string)
    ensures Keep(NotOfKey(k), Lines(Printed(vars))) == Written(Without(vars, k)) <==>
        OthersIntact(vars, k) && OwnDropped(vars, k)
  {
    var kept, others := Keep(NotOfKey(k), Lines(Printed(vars))), Written(Without(vars, k));
    if OthersIntact(vars, k) && OwnDropped(vars, k) { KeptAreOthers(vars, k); }
    if kept == others {
      KeepNeither(Lines(Printed(vars)), k);
      NoLinesOfKey(others, k);
      KeptLines(vars, k);
      KeptOf(NotOfKey(k), vars, k);
      assert |Keep(NotOfKey(k), Written(Only(vars, k)))| == 0;
      StrippedIsSame(others);
      OwnNeedsShortKey(vars, k);
    }
  }

  lemma PrintedAlike(vars: seq<Var>, k: string)
    ensures Printed(vars) == Printed(Without(vars, k)) <==> Only(vars, k) == []
  {
    PrintedIsWritten(vars);
    PrintedIsWritten(Without(vars, k));
    WrittenAlike(Assigned(vars), Assigned(Without(vars, k)));
    var p := (l: string) => true;
    KeptOf(p, vars, k);
    KeepAll(p, Written(vars));
    KeepAll(p, Written(Without(vars, k)));
    KeepAll(p, Written(Only(vars, k)));
    assert |Written(Only(vars, k))| >= |Assigned(Only(vars, k))|;
    if Only(vars, k) == [] { WithoutNone(vars, k); }
  }

  lemma {:induction false} WithoutNone(vars: seq<Var>, k: string)
    requires Only(vars, k) == []
    ensures Without(vars, k) == vars
  {
    if vars != [] {
      WithoutHead(vars, k);
      WithoutNone(vars[1..], k);
    }
  }

  /** After a removal from such a file, the reader sees the list without the variables of the key exactly when no
      key left has an equals sign and, if some line assigns the key, the same holds; if none does, when there was no
      such variable. */
  lemma RemoveReads(vars: seq<Var>, k: string)
    ensures ReadAll(Removed(Printed(vars), k)) == Some(Without(vars, k)) <==>
            EqualsFree(Without(vars, k)) &&
            if Assigns(Lines(Printed(vars)), k) then OthersIntact(vars, k) && OwnDropped(vars, k)
                else Only(vars, k) == []
  {
    var kept := Keep(NotOfKey(k), Lines(Printed(vars)));
    PrintedReadsBack(Removed(Printed(vars), k), Without(vars, k));
    if Assigns(Lines(Printed(vars)), k) {
      KeptIsNewlineFree(NotOfKey(k), Lines(Printed(vars)));
      RawsOfLines(kept);
      PrintedIsWritten(Without(vars, k));
      WrittenAlike(kept, Assigned(Without(vars, k)));
      KeptAreOnlyOthers(vars, k);
    } else {
      PrintedAlike(vars, k);
    }
  }

  /** The second line of such a value. */
  lemma SecondLine(x: Var, k: string, rest: string)
    requires x.value == "" + "\n" + (k + "=" + rest) && OneLine(x.key) && OneLine(k) && OneLine(rest)
    requires EscapedChars(k) == k
    ensures exists l :: l in RawLines(Assign(x)) && HasKey(k, l)
  {
    var y := k + "=" + rest;
    AssignOfTwo(x, "", y);
    EscapeAddsNoNewline(y);
    RawLinesOfTwo(x.key + "=\"" + EscapedChars(""), EscapedChars(y) + "\"");
    EscapedOfLine(k, rest);
    LooksLike(k, EscapedChars(rest), EscapedChars(y) + "\"");
    assert RawLines(Assign(x))[1] == EscapedChars(y) + "\"";
  }

  lemma EscapedOfLine(k: string, rest: string)
    ensures EscapedChars(k + "=" + rest) == EscapedChars(k) + "=" + EscapedChars(rest)
  {
    EscapedConcat(k + "=", rest);
    EscapedConcat(k, "=");
    assert "="[1..] == "" && EscapedChars("=") == "=";
  }

  lemma LooksLike(k: string, rest: string, line: string)
    requires line == k + "=" + rest + "\""
    ensures HasKey(k, line)
  {
    assert line[..|k| + 1] == k + "=";
  }

  lemma OneOther(x: Var, v: Var)
    requires x.key != v.key
    ensures Without([x], v.key) == [x] && Only([x], v.key) == [] && Replaced([x], v) == [x, v]
    ensures Written([x]) == RawLines(Assign(x))
  {
    assert [x][1..] == [];
    WithoutHead([x], v.key);
    ReplacedNone([x], v);
    assert [x] + [] == [x];
    WrittenCons(x, []);
  }

  /** Another variable whose value has a second line that looks like a line of the key: that line is taken for it, so
      the reader does not see the two variables. */
  lemma LineOfAnotherIsTaken(x: Var, v: Var, rest: string)
    requires x.value == "" + "\n" + (v.key + "=" + rest) && x.key != v.key && OneLine(x.key) && OneLine(v.key)
        && OneLine(rest)
    requires EscapedChars(v.key) == v.key
    ensures ReadAll(UpsertedFile(Printed([x]), v)) != Some([x, v])
  {
    SecondLine(x, v.key, rest);
    var l :| l in RawLines(Assign(x)) && HasKey(v.key, l);
    OneOther(x, v);
    assert l in Keep(OfKey(v.key), RawLines(Assign(x)));
    UpsertReads([x], v);
  }
}
