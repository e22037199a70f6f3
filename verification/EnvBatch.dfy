/** The batch editor of the `.env` file against one upsert after another. */
module EnvBatch {
  import opened Texts
  import opened EnvFile
  import opened EnvEdit
  import opened EnvLaws

  predicate Names(vars: seq<Var>, k: string) { exists i | 0 <= i < |vars| :: vars[i].key == k }

  /** A line that the batch leaves alone: without an equals sign, or with a key that, trimmed, is not
      being written. */
  function LeftAlone(trim: string -> string, vars: seq<Var>): string -> bool {
    l => match ReadKey(l) case Failed => true case Ok(k, _) => !Names(vars, trim(k))
  }

  function Assigned(vars: seq<Var>): seq<string> { seq(|vars|, i requires 0 <= i < |vars| => Assign(vars[i])) }

  function Batch(trim: string -> string, ls: seq<string>, vars: seq<Var>): seq<string> {
    Keep(LeftAlone(trim, vars), ls) + Assigned(vars)
  }

  method UpsertVars(trim: string -> string, existing: string, vars: seq<Var>) returns (result: string)
    ensures result == Unlines(Batch(trim, Lines(existing), vars))
  {
    result := CopyOthers(trim, Lines(existing), vars);
    result := AppendAll(result, Keep(LeftAlone(trim, vars), Lines(existing)), vars);
  }

  method CopyOthers(trim: string -> string, ls: seq<string>, vars: seq<Var>) returns (result: string)
    ensures result == Unlines(Keep(LeftAlone(trim, vars), ls))
  {
    ghost var p := LeftAlone(trim, vars);
    result := "";
    for i := 0 to |ls|
      invariant result == Unlines(Keep(p, ls[..i]))
    {
      assert ls[..i + 1][..i] == ls[..i];
      var isOverwritten := match ReadKey(ls[i]) case Failed => false case Ok(k, _) => Names(vars, trim(k));
      if !isOverwritten {
        UnlinesSnoc(Keep(p, ls[..i]), ls[i]);
        result := result + ls[i] + "\n";
      }
    }
    assert ls[..|ls|] == ls;
  }

  method AppendAll(before: string, ghost kept: seq<string>, vars: seq<Var>) returns (result: string)
    requires before == Unlines(kept)
    ensures result == Unlines(kept + Assigned(vars))
  {
    result := before;
    assert kept + Assigned(vars[..0]) == kept;
    for i := 0 to |vars|
      invariant result == Unlines(kept + Assigned(vars[..i]))
    {
      assert kept + Assigned(vars[..i + 1]) == kept + Assigned(vars[..i]) + [Assign(vars[i])];
      UnlinesSnoc(kept + Assigned(vars[..i]), Assign(vars[i]));
      result := result + Assign(vars[i]) + "\n";
    }
    assert vars[..|vars|] == vars;
  }

  /** A line that assigns nothing, such as a comment or an empty one. */
  function AssignsNothing(): string -> bool { l => '=' !in l }

  lemma {:induction false} NoKeyIsRead(l: string)
    ensures ReadKey(l).Failed? <==> '=' !in l
  {
    if l != "" { NoKeyIsRead(l[1..]); }
  }

  lemma {:induction false} KeepWithin(p: string -> bool, q: string -> bool, ls: seq<string>)
    requires forall l :: p(l) ==> q(l)
    ensures Keep(p, Keep(q, ls)) == Keep(p, ls)
  {
    if ls != [] { KeepWithin(p, q, ls[..|ls| - 1]); }
  }

  /** The batch keeps every line that assigns nothing, in order. */
  lemma BatchKeepsTheRest(trim: string -> string, ls: seq<string>, vars: seq<Var>)
    ensures Keep(AssignsNothing(), Batch(trim, ls, vars)) == Keep(AssignsNothing(), ls)
  {
    var p, q := AssignsNothing(), LeftAlone(trim, vars);
    forall l ensures p(l) ==> q(l) { NoKeyIsRead(l); }
    KeepWithin(p, q, ls);
    KeepConcat(p, Keep(q, ls), Assigned(vars));
    forall i | 0 <= i < |Assigned(vars)| ensures !p(Assigned(vars)[i]) {
      assert Assign(vars[i])[|vars[i].key|] == '=';
    }
    KeepNone(p, Assigned(vars));
  }

  /** One upsert after another. */
  function Each(ls: seq<string>, vars: seq<Var>): seq<string> {
    if vars == [] then ls else Upserted(Each(ls, vars[..|vars| - 1]), vars[|vars| - 1])
  }

  lemma {:induction false} KeyIsRead(k: string, l: string)
    requires '=' !in k
    ensures HasKey(k, l) <==> ReadKey(l).Ok? && ReadKey(l).value == k
  {
    if l != "" && l[0] != '=' {
      if k != "" {
        KeyIsRead(k[1..], l[1..]);
        assert k == [k[0]] + k[1..] && l == [l[0]] + l[1..];
        assert HasKey(k, l) <==> k[0] == l[0] && HasKey(k[1..], l[1..]) by {
          assert k + "=" == [k[0]] + (k[1..] + "=");
          if k[0] == l[0] && HasKey(k[1..], l[1..]) { assert l[..|k| + 1] == [l[0]] + l[1..][..|k|]; }
          if HasKey(k, l) { assert (k + "=")[0] == l[0] && l[..|k| + 1] == k + "=" && l[1..][..|k|] == (k + "=")[1..]; }
        }
        if ReadKey(l).Ok? {
          assert ReadKey(l).value[1..] == ReadKey(l[1..]).value;
          assert ReadKey(l).value == [l[0]] + ReadKey(l[1..]).value;
        }
      }
    } else if l != "" {
      assert HasKey(k, l) ==> (k + "=")[0] == '=';
    }
  }

  lemma OtherKeysUntouched(ls: seq<string>, v: Var, k: string)
    requires '=' !in k && '=' !in v.key && k != v.key
    ensures Keep(OfKey(k), Upserted(ls, v)) == Keep(OfKey(k), ls)
  {
    forall l ensures HasKey(k, l) ==> !HasKey(v.key, l) {
      KeyIsRead(k, l);
      KeyIsRead(v.key, l);
    }
    UpsertedHolds(ls, v);
    KeepWithin(OfKey(k), NotOfKey(v.key), ls);
    KeepWithin(OfKey(k), NotOfKey(v.key), Upserted(ls, v));
  }

  predicate DistinctKeys(vars: seq<Var>) {
    && (forall i | 0 <= i < |vars| :: '=' !in vars[i].key)
    && forall i, j | 0 <= i < j < |vars| :: vars[i].key != vars[j].key
  }

  /** The new line of a key that is written. */
  function LineFor(vars: seq<Var>, k: string): string
    requires Names(vars, k)
  {
    if vars[0].key == k then Assign(vars[0]) else LineFor(vars[1..], k)
  }

  lemma {:induction false} LineForAt(vars: seq<Var>, i: nat)
    requires DistinctKeys(vars) && i < |vars|
    ensures LineFor(vars, vars[i].key) == Assign(vars[i])
  {
    if i > 0 { LineForAt(vars[1..], i - 1); }
  }

  /** After one upsert after another, each key written has its one line, and other keys the lines they had. */
  lemma {:induction false} EachHolds(ls: seq<string>, vars: seq<Var>, k: string)
    requires DistinctKeys(vars) && '=' !in k
    ensures Keep(OfKey(k), Each(ls, vars)) == if Names(vars, k) then [LineFor(vars, k)] else Keep(OfKey(k), ls)
  {
    if vars != [] {
      var n := |vars| - 1;
      var front, v := vars[..n], vars[n];
      EachHolds(ls, front, k);
      if v.key == k {
        UpsertedHolds(Each(ls, front), v);
        LineForAt(vars, n);
      } else {
        OtherKeysUntouched(Each(ls, front), v, k);
        if Names(vars, k) {
          var i :| 0 <= i < |vars| && vars[i].key == k;
          assert front[i] == vars[i];
          LineForAt(vars, i);
          LineForAt(front, i);
        }
      }
    }
  }

  lemma {:induction false} AssignedHolds(vars: seq<Var>, k: string)
    requires DistinctKeys(vars) && '=' !in k
    ensures Keep(OfKey(k), Assigned(vars)) == if Names(vars, k) then [LineFor(vars, k)] else []
  {
    if vars != [] {
      var n := |vars| - 1;
      var front, v := vars[..n], vars[n];
      assert Assigned(vars)[..n] == Assigned(front);
      AssignedHolds(front, k);
      AssignHasKey(v);
      KeyIsRead(v.key, Assign(v));
      KeyIsRead(k, Assign(v));
      if v.key == k {
        LineForAt(vars, n);
      } else if Names(vars, k) {
        var i :| 0 <= i < |vars| && vars[i].key == k;
        assert front[i] == vars[i];
        LineForAt(vars, i);
        LineForAt(front, i);
      }
    }
  }

  /** The key of a line, when trimming makes no difference to whether it is being written. */
  predicate TrimSafe(trim: string -> string, vars: seq<Var>, l: string) {
    match ReadKey(l) case Failed => true case Ok(k, _) => Names(vars, trim(k)) <==> Names(vars, k)
  }

  lemma BatchHoldsFor(trim: string -> string, ls: seq<string>, vars: seq<Var>, k: string)
    requires DistinctKeys(vars) && '=' !in k
    ensures Keep(OfKey(k), Batch(trim, ls, vars)) ==
            (if Names(vars, trim(k)) then [] else Keep(OfKey(k), ls))
              + (if Names(vars, k) then [LineFor(vars, k)] else [])
  {
    var p, alone := OfKey(k), LeftAlone(trim, vars);
    KeepConcat(p, Keep(alone, ls), Assigned(vars));
    AssignedHolds(vars, k);
    forall l ensures HasKey(k, l) ==> (alone(l) <==> !Names(vars, trim(k))) { KeyIsRead(k, l); }
    if Names(vars, trim(k)) {
      var kept := Keep(alone, ls);
      forall i | 0 <= i < |kept| ensures !p(kept[i]) { assert kept[i] in kept; }
      KeepNone(p, kept);
    } else {
      KeepWithin(p, alone, ls);
    }
  }

  /** The batch editor and one upsert after another give every key the same lines exactly when trimming the
      key of a line never decides whether the line is overwritten. The batch editor trims, the single one
      does not. */
  lemma BatchIsEach(trim: string -> string, ls: seq<string>, vars: seq<Var>)
    requires DistinctKeys(vars)
    ensures (forall k | '=' !in k :: Keep(OfKey(k), Batch(trim, ls, vars)) == Keep(OfKey(k), Each(ls, vars))) <==>
            (forall l | l in ls :: TrimSafe(trim, vars, l))
  {
    forall k | '=' !in k
      ensures Keep(OfKey(k), Batch(trim, ls, vars)) == Keep(OfKey(k), Each(ls, vars)) <==>
              (Keep(OfKey(k), ls) != [] ==> (Names(vars, trim(k)) <==> Names(vars, k)))
    {
      BatchHoldsFor(trim, ls, vars, k);
      EachHolds(ls, vars, k);
      if Keep(OfKey(k), ls) != [] && !Names(vars, trim(k)) && Names(vars, k) {
        assert |Keep(OfKey(k), Batch(trim, ls, vars))| > |Keep(OfKey(k), Each(ls, vars))|;
      }
    }
    if forall k | '=' !in k :: Keep(OfKey(k), Batch(trim, ls, vars)) == Keep(OfKey(k), Each(ls, vars)) {
      forall l | l in ls ensures TrimSafe(trim, vars, l) {
        if ReadKey(l).Ok? {
          KeyIsRead(ReadKey(l).value, l);
          assert l in Keep(OfKey(ReadKey(l).value), ls);
        }
      }
    }
    if forall l | l in ls :: TrimSafe(trim, vars, l) {
      forall k | '=' !in k && Keep(OfKey(k), ls) != [] ensures Names(vars, trim(k)) <==> Names(vars, k) {
        var l := Keep(OfKey(k), ls)[0];
        assert l in Keep(OfKey(k), ls);
        KeyIsRead(k, l);
      }
    }
  }

  lemma TrimmedKeyDiffers(trim: string -> string, v: Var, spaced: string, l: string)
    requires '=' !in v.key && '=' !in spaced && spaced != v.key && trim(spaced) == v.key && HasKey(spaced, l)
    ensures Keep(OfKey(spaced), Batch(trim, [l], [v])) != Keep(OfKey(spaced), Each([l], [v]))
  {
    assert DistinctKeys([v]) && [v][0].key == v.key && !Names([v], spaced) && [l][..0] == [];
    assert Keep(OfKey(spaced), [l]) == [l];
    BatchHoldsFor(trim, [l], [v], spaced);
    EachHolds([l], [v], spaced);
  }

  /** A space before the equals sign: the batch replaces the line, the single upsert adds another. */
  lemma SpacedKeyDiffers(trim: string -> string, v: Var, spaced: string, l: string)
    requires v.key == "K" && spaced == "K " && l == "K =1" && trim(spaced) == v.key
    ensures Keep(OfKey(spaced), Batch(trim, [l], [v])) != Keep(OfKey(spaced), Each([l], [v]))
  {
    assert l[..3] == spaced + "=";
    TrimmedKeyDiffers(trim, v, spaced, l);
  }

  // ---------------------------------------------------------------- on files

  function BatchFile(trim: string -> string, content: string, vars: seq<Var>): string {
    Unlines(Batch(trim, Lines(content), vars))
  }

  function EachFile(content: string, vars: seq<Var>): string {
    if vars == [] then content else UpsertedFile(EachFile(content, vars[..|vars| - 1]), vars[|vars| - 1])
  }

  /** `n` rewritings. */
  function StripTimes(ls: seq<string>, n: nat): (r: seq<string>)
    ensures |r| == |ls|
  {
    if n == 0 then ls else Stripped(StripTimes(ls, n - 1))
  }

  ghost predicate AllOneLine(vars: seq<Var>) { forall i | 0 <= i < |vars| :: IsOneLine(vars[i]) }

  lemma {:induction false} UpsertedStripTimes(ls: seq<string>, v: Var, n: nat)
    ensures Upserted(StripTimes(ls, n), v) == StripTimes(Upserted(ls, v), n)
  {
    if n > 0 {
      UpsertedStripped(StripTimes(ls, n - 1), v);
      UpsertedStripTimes(ls, v, n - 1);
    }
  }

  lemma UpsertedIsLines(ls: seq<string>, v: Var)
    requires IsOneLine(v) && forall i | 0 <= i < |ls| :: OneLine(ls[i])
    ensures Raws(Upserted(ls, v)) == Upserted(ls, v)
  {
    var a, b := AroundUpsert(ls, v.key);
    KeptIsNewlineFree(NotOfKey(v.key), ls);
    PartsAreLines(a, b);
    AssignHasKey(v);
    RawsOfLines(a + [Assign(v)] + b);
  }

  lemma {:induction false} EachFileLines(content: string, vars: seq<Var>)
    requires AllOneLine(vars)
    ensures Lines(EachFile(content, vars)) == StripTimes(Each(Lines(content), vars), |vars|)
  {
    if vars != [] {
      var n := |vars| - 1;
      EachFileLines(content, vars[..n]);
      LinesAfterUpsert(EachFile(content, vars[..n]), vars[n]);
      UpsertedIsLines(Lines(EachFile(content, vars[..n])), vars[n]);
      UpsertedStripTimes(Each(Lines(content), vars[..n]), vars[n], n);
    }
  }

  lemma BatchFileLines(trim: string -> string, content: string, vars: seq<Var>)
    requires AllOneLine(vars)
    ensures Lines(BatchFile(trim, content, vars)) == Stripped(Batch(trim, Lines(content), vars))
  {
    var ls := Batch(trim, Lines(content), vars);
    KeptIsNewlineFree(LeftAlone(trim, vars), Lines(content));
    forall i | 0 <= i < |vars| ensures OneLine(Assigned(vars)[i]) { AssignHasKey(vars[i]); }
    LinesOfUnlines(ls);
  }

  lemma {:induction false} KeepOfKeyStripped(k: string, ls: seq<string>)
    ensures Keep(OfKey(k), Stripped(ls)) == Stripped(Keep(OfKey(k), ls))
  {
    if ls != [] {
      var front, l := ls[..|ls| - 1], ls[|ls| - 1];
      assert Stripped(ls)[..|ls| - 1] == Stripped(front);
      KeepOfKeyStripped(k, front);
      StripKeepsKey(k, l);
      StrippedConcat(Keep(OfKey(k), front), [l]);
    }
  }

  lemma {:induction false} KeepStripTimes(k: string, ls: seq<string>, n: nat)
    ensures Keep(OfKey(k), StripTimes(ls, n)) == StripTimes(Keep(OfKey(k), ls), n)
  {
    if n > 0 {
      KeepOfKeyStripped(k, StripTimes(ls, n - 1));
      KeepStripTimes(k, ls, n - 1);
    }
  }

  lemma {:induction false} CrFreeStays(ls: seq<string>, n: nat)
    requires CrFree(ls)
    ensures StripTimes(ls, n) == ls
  {
    if n > 0 {
      CrFreeStays(ls, n - 1);
      StrippedIsSame(ls);
    }
  }

  lemma {:induction false} StripTimesShortens(ls: seq<string>, n: nat, i: nat)
    requires i < |ls|
    ensures |StripTimes(ls, n)[i]| <= |ls[i]|
    ensures n > 0 && EndsInCr(ls[i]) ==> |StripTimes(ls, n)[i]| < |ls[i]|
  {
    if n > 0 { StripTimesShortens(ls, n - 1, i); }
  }

  lemma {:induction false} StripTimesAdds(ls: seq<string>, n: nat)
    ensures StripTimes(Stripped(ls), n) == StripTimes(ls, n + 1)
  {
    if n > 0 { StripTimesAdds(ls, n - 1); }
  }

  /** A line that one rewriting leaves as `n` do. */
  predicate Settles(l: string, n: nat) {
    n == 1 || !EndsInCr(if n == 0 then l else StripCr(l))
  }

  lemma OnceIsTimes(ls: seq<string>, n: nat)
    ensures Stripped(ls) == StripTimes(ls, n) <==> forall i | 0 <= i < |ls| :: Settles(ls[i], n)
  {
    if n == 0 {
      StrippedIsSame(ls);
    } else if n == 1 {
      assert StripTimes(ls, 0) == ls;
    } else {
      var once := Stripped(ls);
      StripTimesAdds(ls, n - 1);
      if CrFree(once) { CrFreeStays(once, n - 1); }
      forall i | 0 <= i < |ls| ensures once == StripTimes(once, n - 1) ==> Settles(ls[i], n) {
        StripTimesShortens(once, n - 1, i);
      }
    }
  }

  /** What both editors make of key `k`, read back. */
  lemma FilesForKey(trim: string -> string, ls: seq<string>, vars: seq<Var>, k: string)
    requires DistinctKeys(vars) && '=' !in k
    ensures var kept := Keep(OfKey(k), ls);
            Stripped(Keep(OfKey(k), Batch(trim, ls, vars))) == StripTimes(Keep(OfKey(k), Each(ls, vars)), |vars|) <==>
            (kept != [] ==> (Names(vars, trim(k)) <==> Names(vars, k))
                            && (Names(vars, k) || Stripped(kept) == StripTimes(kept, |vars|)))
  {
    var kept := Keep(OfKey(k), ls);
    BatchHoldsFor(trim, ls, vars, k);
    EachHolds(ls, vars, k);
    if Names(vars, k) {
      var line := LineFor(vars, k);
      LineIsCrFree(vars, k);
      CrFreeStays([line], |vars|);
      StrippedIsSame([line]);
      if !Names(vars, trim(k)) { StrippedConcat(kept, [line]); }
      assert [] + [line] == [line];
    } else {
      assert kept + [] == kept && [] + [] == kept[..0];
    }
  }

  lemma {:induction false} LineIsCrFree(vars: seq<Var>, k: string)
    requires Names(vars, k)
    ensures CrFree([LineFor(vars, k)])
  {
    AssignHasKey(vars[0]);
    if vars[0].key != k {
      var i :| 0 <= i < |vars| && vars[i].key == k;
      assert vars[1..][i - 1].key == k;
      LineIsCrFree(vars[1..], k);
    }
  }

  /** What the two laws need of a line that is read. */
  predicate Agreeable(trim: string -> string, vars: seq<Var>, l: string) {
    match ReadKey(l)
    case Failed => true
    case Ok(k, _) => (Names(vars, trim(k)) <==> Names(vars, k)) && (Names(vars, k) || Settles(l, |vars|))
  }

  /** The lines of a key in a file. */
  function LinesFor(k: string, content: string): seq<string> { Keep(OfKey(k), Lines(content)) }

  /** On files, for values of one line, the batch editor and one upsert after another give every key the same lines
      in the same order exactly when trimming decides nothing and, for a key not written, one rewriting loses as many
      carriage returns as one for each variable. */
  lemma OneLineFileBatchIsEach(trim: string -> string, content: string, vars: seq<Var>)
    requires DistinctKeys(vars) && AllOneLine(vars)
    ensures (forall k | '=' !in k ::
               LinesFor(k, BatchFile(trim, content, vars)) == LinesFor(k, EachFile(content, vars))) <==>
            (forall l | l in Lines(content) :: Agreeable(trim, vars, l))
  {
    var ls := Lines(content);
    BatchFileLines(trim, content, vars);
    EachFileLines(content, vars);
    forall k | '=' !in k
      ensures LinesFor(k, BatchFile(trim, content, vars)) == LinesFor(k, EachFile(content, vars)) <==>
              KeyAgrees(trim, vars, ls, k)
    {
      KeepOfKeyStripped(k, Batch(trim, ls, vars));
      KeepStripTimes(k, Each(ls, vars), |vars|);
      FilesForKey(trim, ls, vars, k);
      OnceIsTimes(Keep(OfKey(k), ls), |vars|);
    }
    KeysAgreeByLine(trim, vars, ls);
  }

  ghost predicate KeyAgrees(trim: string -> string, vars: seq<Var>, ls: seq<string>, k: string) {
    var kept := Keep(OfKey(k), ls);
    kept != [] ==>
      && (Names(vars, trim(k)) <==> Names(vars, k))
      && (Names(vars, k) || forall i | 0 <= i < |kept| :: Settles(kept[i], |vars|))
  }

  lemma KeysAgreeByLine(trim: string -> string, vars: seq<Var>, ls: seq<string>)
    ensures (forall k | '=' !in k :: KeyAgrees(trim, vars, ls, k)) <==> (forall l | l in ls :: Agreeable(trim, vars, l))
  {
    if forall k | '=' !in k :: KeyAgrees(trim, vars, ls, k) {
      forall l | l in ls ensures Agreeable(trim, vars, l) {
        if ReadKey(l).Ok? {
          var k := ReadKey(l).value;
          KeyIsRead(k, l);
          assert l in Keep(OfKey(k), ls);
          assert KeyAgrees(trim, vars, ls, k);
        }
      }
    }
    if forall l | l in ls :: Agreeable(trim, vars, l) {
      forall k | '=' !in k ensures KeyAgrees(trim, vars, ls, k) {
        var kept := Keep(OfKey(k), ls);
        forall i | 0 <= i < |kept|
          ensures (Names(vars, trim(k)) <==> Names(vars, k)) && (Names(vars, k) || Settles(kept[i], |vars|))
        {
          assert kept[i] in kept;
          KeyIsRead(k, kept[i]);
        }
        if kept != [] { assert kept[0] in kept; }
      }
    }
  }
}
