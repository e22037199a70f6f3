/** The batch editor against one upsert after another, on files and for values of any number of lines. */
module EnvManyLines {
  import opened Texts
  import opened EnvFile
  import opened EnvEdit
  import opened EnvLaws
  import opened EnvBatch

  // ---------------------------------------------------------------- the lines of one key

  /** The lines of an assignment that a reader of lines takes for lines of `k`. */
  function Own(v: Var, k: string): seq<string> { Keep(OfKey(k), RawLines(Assign(v))) }

  /** Those of all variables, in the batch: each read once. */
  function BatchOwn(vars: seq<Var>, k: string): seq<string> {
    if vars == [] then [] else Stripped(Own(vars[0], k)) + BatchOwn(vars[1..], k)
  }

  /** And one upsert after another: each read once for every file it is in. */
  function EachOwn(vars: seq<Var>, k: string): seq<string> {
    if vars == [] then [] else StripTimes(Own(vars[0], k), |vars|) + EachOwn(vars[1..], k)
  }

  lemma {:induction false} EachOwnSnoc(vars: seq<Var>, v: Var, k: string)
    ensures EachOwn(vars + [v], k) == Stripped(EachOwn(vars, k)) + Stripped(Own(v, k))
  {
    if vars == [] {
      assert vars + [v] == [v] && [v][1..] == [];
      assert StripTimes(Own(v, k), 1) == Stripped(StripTimes(Own(v, k), 0));
      assert EachOwn([v], k) == StripTimes(Own(v, k), 1) + EachOwn([], k);
    } else {
      assert (vars + [v])[1..] == vars[1..] + [v] && (vars + [v])[0] == vars[0];
      EachOwnSnoc(vars[1..], v, k);
      var x := StripTimes(Own(vars[0], k), |vars|);
      StrippedConcat(x, EachOwn(vars[1..], k));
      InTwo(Stripped(x), Stripped(EachOwn(vars[1..], k)), Stripped(Own(v, k)));
    }
  }

  /** The lines of `k` after one upsert after another, up to their order: writing the key drops the others. */
  function EachLines(kept: seq<string>, vars: seq<Var>, k: string): seq<string> {
    if vars == [] then kept
    else
      var front, last := vars[..|vars| - 1], vars[|vars| - 1];
      if last.key == k then Stripped(Own(last, k)) else Stripped(EachLines(kept, front, k)) + Stripped(Own(last, k))
  }

  // ---------------------------------------------------------------- the files have these lines

  lemma TakenOut(x: seq<string>, i: nat)
    requires i < |x|
    ensures multiset(x) == multiset(x[..i] + x[i + 1..]) + multiset{x[i]}
    ensures multiset(Stripped(x)) == multiset(Stripped(x[..i] + x[i + 1..])) + multiset{StripCr(x[i])}
  {
    assert x == x[..i] + [x[i]] + x[i + 1..];
    assert Stripped(x) == Stripped(x[..i]) + [StripCr(x[i])] + Stripped(x[i + 1..]);
    StrippedConcat(x[..i], x[i + 1..]);
  }

  lemma Cancel(a: multiset<string>, b: multiset<string>, l: string)
    requires a + multiset{l} == b + multiset{l}
    ensures a == b
  {
    assert a == (a + multiset{l}) - multiset{l} && b == (b + multiset{l}) - multiset{l};
  }

  /** The same lines, without the first of `x`. */
  lemma TakeFirstOut(x: seq<string>, y: seq<string>) returns (i: nat)
    requires multiset(x) == multiset(y) && x != []
    ensures i < |y| && y[i] == x[0] && multiset(x[..0] + x[1..]) == multiset(y[..i] + y[i + 1..])
  {
    assert x[0] in multiset(x) && x[0] in multiset(y);
    i :| 0 <= i < |y| && y[i] == x[0];
    TakenOut(x, 0);
    TakenOut(y, i);
    Cancel(multiset(x[..0] + x[1..]), multiset(y[..i] + y[i + 1..]), x[0]);
  }

  lemma {:induction false} StrippedAlike(x: seq<string>, y: seq<string>)
    requires multiset(x) == multiset(y)
    ensures multiset(Stripped(x)) == multiset(Stripped(y))
    decreases |x|
  {
    if x == [] {
      assert |multiset(y)| == 0;
    } else {
      var i := TakeFirstOut(x, y);
      StrippedAlike(x[..0] + x[1..], y[..i] + y[i + 1..]);
      TakenOut(x, 0);
      TakenOut(y, i);
    }
  }

  /** What an upsert of `v` does to the lines of `k`. */
  lemma UpsertKeyLines(ls: seq<string>, v: Var, k: string)
    requires (forall i | 0 <= i < |ls| :: OneLine(ls[i])) && '=' !in k && '=' !in v.key
    ensures var before := if v.key == k then [] else Keep(OfKey(k), ls);
            multiset(Keep(OfKey(k), Raws(Upserted(ls, v)))) == multiset(before) + multiset(Own(v, k))
  {
    var a, b := AroundUpsert(ls, v.key);
    KeptIsNewlineFree(NotOfKey(v.key), ls);
    RawsAround(a, b, Assign(v));
    KeepOfParts(OfKey(k), a, RawLines(Assign(v)), b);
    KeepConcat(OfKey(k), a, b);
    if v.key == k {
      KeepNeither(ls, k);
    } else {
      forall l ensures HasKey(k, l) ==> !HasKey(v.key, l) {
        KeyIsRead(k, l);
        KeyIsRead(v.key, l);
      }
      KeepWithin(OfKey(k), NotOfKey(v.key), ls);
    }
  }

  lemma KeepNeither(ls: seq<string>, k: string)
    ensures Keep(OfKey(k), Keep(NotOfKey(k), ls)) == []
  {
    var kept := Keep(NotOfKey(k), ls);
    forall i | 0 <= i < |kept| ensures !OfKey(k)(kept[i]) { assert kept[i] in kept; }
    KeepNone(OfKey(k), kept);
  }

  lemma {:induction false} EachFileKeyLines(content: string, vars: seq<Var>, k: string)
    requires EqualsFree(vars) && '=' !in k
    ensures multiset(LinesFor(k, EachFile(content, vars))) == multiset(EachLines(LinesFor(k, content), vars, k))
  {
    if vars != [] {
      var n := |vars| - 1;
      var before, last := EachFile(content, vars[..n]), vars[n];
      EachFileKeyLines(content, vars[..n], k);
      LinesAfterUpsert(before, last);
      var raws := Raws(Upserted(Lines(before), last));
      KeepOfKeyStripped(k, raws);
      UpsertKeyLines(Lines(before), last, k);
      var own := Own(last, k);
      if last.key == k {
        StrippedAlike(Keep(OfKey(k), raws), own);
      } else {
        StrippedAlike(Keep(OfKey(k), raws), LinesFor(k, before) + own);
        StrippedConcat(LinesFor(k, before), own);
        StrippedAlike(LinesFor(k, before), EachLines(LinesFor(k, content), vars[..n], k));
      }
    }
  }

  lemma {:induction false} OwnOfAssigned(vars: seq<Var>, k: string)
    ensures Stripped(Keep(OfKey(k), Raws(Assigned(vars)))) == BatchOwn(vars, k)
  {
    if vars != [] {
      assert Assigned(vars) == [Assign(vars[0])] + Assigned(vars[1..]);
      RawsConcat([Assign(vars[0])], Assigned(vars[1..]));
      RawsOfOne(Assign(vars[0]));
      KeepConcat(OfKey(k), RawLines(Assign(vars[0])), Raws(Assigned(vars[1..])));
      StrippedConcat(Own(vars[0], k), Keep(OfKey(k), Raws(Assigned(vars[1..]))));
      OwnOfAssigned(vars[1..], k);
    }
  }

  /** The lines of `k` that the batch keeps. */
  function BatchKept(trim: string -> string, kept: seq<string>, vars: seq<Var>, k: string): seq<string> {
    if Names(vars, trim(k)) then [] else kept
  }

  lemma BatchFileKeyLines(trim: string -> string, content: string, vars: seq<Var>, k: string)
    requires '=' !in k
    ensures LinesFor(k, BatchFile(trim, content, vars)) ==
            Stripped(BatchKept(trim, LinesFor(k, content), vars, k)) + BatchOwn(vars, k)
  {
    var ls, alone := Lines(content), LeftAlone(trim, vars);
    var kept := Keep(alone, ls);
    LinesOfWritten(Batch(trim, ls, vars));
    RawsConcat(kept, Assigned(vars));
    KeptIsNewlineFree(alone, ls);
    RawsOfLines(kept);
    KeepOfKeyStripped(k, kept + Raws(Assigned(vars)));
    KeepConcat(OfKey(k), kept, Raws(Assigned(vars)));
    StrippedConcat(Keep(OfKey(k), kept), Keep(OfKey(k), Raws(Assigned(vars))));
    OwnOfAssigned(vars, k);
    KeptOfAlone(trim, ls, vars, k);
  }

  lemma KeptOfAlone(trim: string -> string, ls: seq<string>, vars: seq<Var>, k: string)
    requires '=' !in k
    ensures Keep(OfKey(k), Keep(LeftAlone(trim, vars), ls)) == BatchKept(trim, Keep(OfKey(k), ls), vars, k)
  {
    var p, alone := OfKey(k), LeftAlone(trim, vars);
    forall l ensures HasKey(k, l) ==> (alone(l) <==> !Names(vars, trim(k))) { KeyIsRead(k, l); }
    if Names(vars, trim(k)) {
      var kept := Keep(alone, ls);
      forall i | 0 <= i < |kept| ensures !p(kept[i]) { assert kept[i] in kept; }
      KeepNone(p, kept);
    } else {
      KeepWithin(p, alone, ls);
    }
  }

  // ---------------------------------------------------------------- when they are the same lines

  lemma {:induction false} StripTimesIsPrefix(ls: seq<string>, n: nat, i: nat)
    requires i < |ls|
    ensures StripTimes(ls, n)[i] <= ls[i]
  {
    if n > 0 { StripTimesIsPrefix(ls, n - 1, i); }
  }

  /** Each line of `x` is a prefix of the line of `y`. */
  ghost predicate Shorter(x: seq<string>, y: seq<string>) {
    |x| == |y| && forall i | 0 <= i < |x| :: x[i] <= y[i]
  }

  function Total(x: seq<string>): nat {
    if x == [] then 0 else |x[0]| + Total(x[1..])
  }

  lemma {:induction false} TotalConcat(x: seq<string>, y: seq<string>)
    ensures Total(x + y) == Total(x) + Total(y)
  {
    if x == [] {
      assert x + y == y;
    } else {
      assert (x + y)[1..] == x[1..] + y;
      TotalConcat(x[1..], y);
    }
  }

  lemma {:induction false} TotalOfTakenOut(x: seq<string>, i: nat)
    requires i < |x|
    ensures Total(x) == |x[i]| + Total(x[..i] + x[i + 1..])
  {
    var rest := x[..i] + x[i + 1..];
    if i == 0 {
      assert rest == x[1..];
    } else {
      assert rest[1..] == x[1..][..i - 1] + x[1..][i..];
      TotalOfTakenOut(x[1..], i - 1);
    }
  }

  lemma {:induction false} SameTotal(x: seq<string>, y: seq<string>)
    requires multiset(x) == multiset(y)
    ensures Total(x) == Total(y) && |x| == |y|
    decreases |x|
  {
    if x == [] {
      assert |multiset(y)| == 0;
    } else {
      var i := TakeFirstOut(x, y);
      TotalOfTakenOut(x, 0);
      TotalOfTakenOut(y, i);
      SameTotal(x[..0] + x[1..], y[..i] + y[i + 1..]);
    }
  }

  lemma {:induction false} ShorterTotal(x: seq<string>, y: seq<string>)
    requires Shorter(x, y)
    ensures Total(x) <= Total(y) && (Total(x) == Total(y) ==> x == y)
  {
    if x != [] {
      ShorterTotal(x[1..], y[1..]);
      assert x == [x[0]] + x[1..] && y == [y[0]] + y[1..];
      assert |x[0]| == |y[0]| ==> x[0] == y[0];
    }
  }

  /** So they are the same lines exactly when they are the same one by one. */
  lemma ShorterAlike(x: seq<string>, y: seq<string>)
    requires Shorter(x, y)
    ensures multiset(x) == multiset(y) <==> x == y
  {
    if multiset(x) == multiset(y) {
      SameTotal(x, y);
      ShorterTotal(x, y);
    }
  }

  lemma StripsShorten(ls: seq<string>, n: nat)
    ensures n > 0 ==> Shorter(StripTimes(ls, n), Stripped(ls))
    ensures n == 0 ==> Shorter(Stripped(ls), StripTimes(ls, n))
  {
    if n > 0 {
      StripTimesAdds(ls, n - 1);
      forall i | 0 <= i < |ls| ensures StripTimes(ls, n)[i] <= Stripped(ls)[i] {
        StripTimesIsPrefix(Stripped(ls), n - 1, i);
      }
    }
  }

  lemma {:induction false} EachOwnIsShorter(vars: seq<Var>, k: string)
    ensures Shorter(EachOwn(vars, k), BatchOwn(vars, k))
  {
    if vars != [] {
      StripsShorten(Own(vars[0], k), |vars|);
      EachOwnIsShorter(vars[1..], k);
    }
  }

  /** The lines of the assignments settle: each is read once for every file from its own on. */
  ghost predicate OwnSettles(vars: seq<Var>, k: string) {
    forall i, l | 0 <= i < |vars| && l in Own(vars[i], k) :: Settles(l, |vars| - i)
  }

  lemma OwnSettlesFirst(vars: seq<Var>, k: string)
    requires vars != []
    ensures OwnSettles(vars, k) <==>
            (forall l | l in Own(vars[0], k) :: Settles(l, |vars|)) && OwnSettles(vars[1..], k)
  {
    var rest := vars[1..];
    if OwnSettles(vars, k) {
      forall i, l | 0 <= i < |rest| && l in Own(rest[i], k) ensures Settles(l, |rest| - i) {
        assert rest[i] == vars[i + 1];
        assert l in Own(vars[i + 1], k);
      }
    }
    if (forall l | l in Own(vars[0], k) :: Settles(l, |vars|)) && OwnSettles(rest, k) {
      forall i, l | 0 <= i < |vars| && l in Own(vars[i], k) ensures Settles(l, |vars| - i) {
        if i > 0 {
          assert vars[i] == rest[i - 1];
          assert l in Own(rest[i - 1], k);
        }
      }
    }
  }

  lemma SettlesEach(ls: seq<string>, n: nat)
    ensures Stripped(ls) == StripTimes(ls, n) <==> forall l | l in ls :: Settles(l, n)
  {
    OnceIsTimes(ls, n);
  }

  lemma SameParts(a: seq<string>, b: seq<string>, x: seq<string>, y: seq<string>)
    requires |a| == |x|
    ensures a + b == x + y <==> a == x && b == y
  {
    if a + b == x + y {
      assert (a + b)[..|a|] == a && (x + y)[..|a|] == x && (a + b)[|a|..] == b && (x + y)[|a|..] == y;
    }
  }

  lemma {:induction false} OwnAgrees(vars: seq<Var>, k: string)
    ensures EachOwn(vars, k) == BatchOwn(vars, k) <==> OwnSettles(vars, k)
  {
    if vars != [] {
      var own := Own(vars[0], k);
      SameParts(StripTimes(own, |vars|), EachOwn(vars[1..], k), Stripped(own), BatchOwn(vars[1..], k));
      SettlesEach(own, |vars|);
      OwnAgrees(vars[1..], k);
      OwnSettlesFirst(vars, k);
    }
  }

  // ---------------------------------------------------------------- key by key

  lemma {:induction false} EachLinesUnnamed(kept: seq<string>, vars: seq<Var>, k: string)
    requires !Names(vars, k)
    ensures EachLines(kept, vars, k) == StripTimes(kept, |vars|) + EachOwn(vars, k)
  {
    if vars == [] {
      assert kept + [] == kept;
    } else {
      var n := |vars| - 1;
      var front, last := vars[..n], vars[n];
      assert forall i | 0 <= i < n :: front[i] == vars[i];
      EachLinesUnnamed(kept, front, k);
      assert vars == front + [last];
      EachOwnSnoc(front, last, k);
      StrippedConcat(StripTimes(kept, n), EachOwn(front, k));
      InTwo(StripTimes(kept, n + 1), Stripped(EachOwn(front, k)), Stripped(Own(last, k)));
    }
  }

  /** Induction over a list from its first `j + 1` on. */
  lemma {:induction false} FromThere(holds: seq<Var> -> bool, vars: seq<Var>, j: nat, n: nat)
    requires j < n <= |vars| && holds(vars[..j + 1])
    requires forall m: nat | j < m < |vars| :: holds(vars[..m]) ==> OneOn(holds, vars, m)
    ensures holds(vars[..n])
    decreases n
  {
    if n > j + 1 {
      FromThere(holds, vars, j, n - 1);
      assert OneOn(holds, vars, n - 1);
    }
  }

  predicate OneOn(holds: seq<Var> -> bool, vars: seq<Var>, m: nat)
    requires m < |vars|
  {
    holds(vars[..m + 1])
  }

  predicate SameFrom(kept: seq<string>, vars: seq<Var>, k: string, j: nat) {
    j < |vars| && EachLines(kept, vars, k) == EachOwn(vars[j..], k)
  }

  lemma SameFromFirst(kept: seq<string>, vars: seq<Var>, k: string, j: nat)
    requires j < |vars| && vars[j].key == k
    ensures SameFrom(kept, vars[..j + 1], k, j)
  {
    EachLinesNamedLast(kept, vars[..j + 1], k);
  }

  lemma SameFromNext(kept: seq<string>, vars: seq<Var>, k: string, j: nat, m: nat)
    requires j < m < |vars| && vars[m].key != k && SameFrom(kept, vars[..m], k, j)
    ensures SameFrom(kept, vars[..m + 1], k, j)
  {
    assert vars[..m + 1][..m] == vars[..m];
    EachLinesNamedBefore(kept, vars[..m + 1], k, j);
  }

  lemma SameFromAll(kept: seq<string>, vars: seq<Var>, k: string, j: nat)
    requires j < |vars| && vars[j].key == k && forall i | j < i < |vars| :: vars[i].key != k
    ensures SameFrom(kept, vars[..|vars|], k, j)
  {
    var holds := (vs: seq<Var>) => SameFrom(kept, vs, k, j);
    SameFromFirst(kept, vars, k, j);
    forall m: nat | j < m < |vars| ensures holds(vars[..m]) ==> OneOn(holds, vars, m) {
      if holds(vars[..m]) { SameFromNext(kept, vars, k, j, m); }
    }
    FromThere(holds, vars, j, |vars|);
  }

  lemma EachLinesNamed(kept: seq<string>, vars: seq<Var>, k: string, j: nat)
    requires j < |vars| && vars[j].key == k && forall i | j < i < |vars| :: vars[i].key != k
    ensures EachLines(kept, vars, k) == EachOwn(vars[j..], k)
  {
    SameFromAll(kept, vars, k, j);
    assert vars[..|vars|] == vars;
  }

  lemma EachLinesNamedLast(kept: seq<string>, vars: seq<Var>, k: string)
    requires vars != [] && vars[|vars| - 1].key == k
    ensures EachLines(kept, vars, k) == EachOwn(vars[|vars| - 1..], k)
  {
    var n := |vars| - 1;
    EachOwnOfTail(vars, k, n);
    EachLinesLast(kept, vars, k);
    EachOwnOfNone(vars[..n][n..], Stripped(Own(vars[n], k)), k);
  }

  lemma EachLinesNamedBefore(kept: seq<string>, vars: seq<Var>, k: string, j: nat)
    requires j < |vars| - 1 && vars[|vars| - 1].key != k
    requires EachLines(kept, vars[..|vars| - 1], k) == EachOwn(vars[..|vars| - 1][j..], k)
    ensures EachLines(kept, vars, k) == EachOwn(vars[j..], k)
  {
    EachOwnOfTail(vars, k, j);
    EachLinesLast(kept, vars, k);
  }

  lemma EachLinesLast(kept: seq<string>, vars: seq<Var>, k: string)
    requires vars != []
    ensures var n := |vars| - 1;
            EachLines(kept, vars, k) ==
            (if vars[n].key == k then [] else Stripped(EachLines(kept, vars[..n], k))) + Stripped(Own(vars[n], k))
  {
    assert [] + Stripped(Own(vars[|vars| - 1], k)) == Stripped(Own(vars[|vars| - 1], k));
  }

  lemma EachOwnOfNone(vars: seq<Var>, more: seq<string>, k: string)
    requires vars == []
    ensures Stripped(EachOwn(vars, k)) + more == more
  {
  }

  lemma EachOwnOfTail(vars: seq<Var>, k: string, j: nat)
    requires j < |vars|
    ensures var n := |vars| - 1;
            EachOwn(vars[j..], k) == Stripped(EachOwn(vars[..n][j..], k)) + Stripped(Own(vars[n], k))
  {
    var n := |vars| - 1;
    assert vars[j..] == vars[..n][j..] + [vars[n]];
    EachOwnSnoc(vars[..n][j..], vars[n], k);
  }

  lemma {:induction false} BatchOwnConcat(a: seq<Var>, b: seq<Var>, k: string)
    ensures BatchOwn(a + b, k) == BatchOwn(a, k) + BatchOwn(b, k)
  {
    if a == [] {
      assert a + b == b;
    } else {
      assert (a + b)[1..] == a[1..] + b;
      BatchOwnConcat(a[1..], b, k);
    }
  }

  lemma {:induction false} NothingOwn(vars: seq<Var>, k: string)
    ensures BatchOwn(vars, k) == [] <==> forall i | 0 <= i < |vars| :: Own(vars[i], k) == []
  {
    if vars != [] {
      NothingOwn(vars[1..], k);
      assert forall i | 0 < i < |vars| :: vars[i] == vars[1..][i - 1];
    }
  }

  lemma SameSize(x: seq<string>, y: seq<string>)
    requires multiset(x) == multiset(y)
    ensures |x| == |y|
  {
    assert |multiset(x)| == |multiset(y)|;
  }

  lemma UnnamedKept(kept: seq<string>, vars: seq<Var>, k: string)
    ensures multiset(Stripped(kept) + BatchOwn(vars, k)) == multiset(StripTimes(kept, |vars|) + EachOwn(vars, k)) <==>
            (forall l | l in kept :: Settles(l, |vars|)) && OwnSettles(vars, k)
  {
    var each, batch := StripTimes(kept, |vars|) + EachOwn(vars, k), Stripped(kept) + BatchOwn(vars, k);
    EachOwnIsShorter(vars, k);
    StripsShorten(kept, |vars|);
    if vars == [] { ShorterAlike(batch, each); } else { ShorterAlike(each, batch); }
    SameParts(StripTimes(kept, |vars|), EachOwn(vars, k), Stripped(kept), BatchOwn(vars, k));
    SettlesEach(kept, |vars|);
    OwnAgrees(vars, k);
  }

  lemma Unnamed(trim: string -> string, kept: seq<string>, vars: seq<Var>, k: string)
    requires !Names(vars, k)
    ensures multiset(Stripped(BatchKept(trim, kept, vars, k)) + BatchOwn(vars, k)) ==
        multiset(EachLines(kept, vars, k)) <==>
            (kept == [] || !Names(vars, trim(k))) && (forall l | l in kept :: Settles(l, |vars|)) && OwnSettles(vars, k)
  {
    EachLinesUnnamed(kept, vars, k);
    var each := StripTimes(kept, |vars|) + EachOwn(vars, k);
    EachOwnIsShorter(vars, k);
    if kept == [] || !Names(vars, trim(k)) {
      assert BatchKept(trim, kept, vars, k) == kept;
      UnnamedKept(kept, vars, k);
    } else if multiset([] + BatchOwn(vars, k)) == multiset(each) {
      SameSize([] + BatchOwn(vars, k), each);
      assert false;
    }
  }

  /** No more lines than `each` are left only when there are none before `batch`. */
  lemma NothingInFront(first: seq<string>, front: seq<string>, batch: seq<string>, each: seq<string>, all: seq<string>,
      alike: bool)
    requires all == first + (front + batch) && |each| <= |batch| && (alike <==> multiset(each) == multiset(batch))
    ensures multiset(all) == multiset(each) <==> first == [] && front == [] && alike
  {
    if multiset(all) == multiset(each) {
      SameSize(all, each);
      assert |first| == 0 && |front| == 0;
    }
    if first == [] && front == [] { assert all == batch; }
  }

  lemma KeptIsNone(trim: string -> string, kept: seq<string>, vars: seq<Var>, k: string)
    ensures Stripped(BatchKept(trim, kept, vars, k)) == [] <==> kept == [] || Names(vars, trim(k))
  {
  }

  lemma OwnAlike(vars: seq<Var>, k: string, lines: seq<string>, batch: seq<string>)
    requires lines == EachOwn(vars, k) && batch == BatchOwn(vars, k)
    ensures |lines| <= |batch| && (OwnSettles(vars, k) <==> multiset(lines) == multiset(batch))
  {
    EachOwnIsShorter(vars, k);
    ShorterAlike(lines, batch);
    OwnAgrees(vars, k);
  }

  lemma OwnSplits(vars: seq<Var>, k: string, j: nat, tail: seq<Var>)
    requires j < |vars| && tail == vars[j..]
    ensures BatchOwn(vars, k) == BatchOwn(vars[..j], k) + BatchOwn(tail, k)
  {
    assert vars == vars[..j] + tail;
    BatchOwnConcat(vars[..j], tail, k);
  }

  lemma NamedOf(first: seq<string>, vars: seq<Var>, k: string, j: nat, tail: seq<Var>, lines: seq<string>,
      own: seq<string>)
    requires j < |vars| && tail == vars[j..] && lines == EachOwn(tail, k) && own == BatchOwn(vars, k)
    ensures multiset(first + own) == multiset(lines) <==>
            first == [] && BatchOwn(vars[..j], k) == [] && OwnSettles(tail, k)
  {
    OwnSplits(vars, k, j, tail);
    OwnAlike(tail, k, lines, BatchOwn(tail, k));
    NothingInFront(first, BatchOwn(vars[..j], k), BatchOwn(tail, k), lines, first + own, OwnSettles(tail, k));
  }

  lemma Named(trim: string -> string, kept: seq<string>, vars: seq<Var>, k: string, j: nat)
    requires DistinctKeys(vars) && j < |vars| && vars[j].key == k
    ensures multiset(Stripped(BatchKept(trim, kept, vars, k)) + BatchOwn(vars, k)) ==
        multiset(EachLines(kept, vars, k)) <==>
            (kept == [] || Names(vars, trim(k))) && BatchOwn(vars[..j], k) == [] && OwnSettles(vars[j..], k)
  {
    KeptIsNone(trim, kept, vars, k);
    EachLinesNamed(kept, vars, k, j);
    NamedOf(Stripped(BatchKept(trim, kept, vars, k)), vars, k, j, vars[j..], EachLines(kept, vars, k),
      BatchOwn(vars, k));
  }

  // ---------------------------------------------------------------- the law

  /** A line of the assignment of variable `i` does not assign a variable written later, and loses as many carriage
      returns read once as read in every file from its own on. */
  predicate Lasts(vars: seq<Var>, i: nat, k: string, l: string)
    requires i < |vars|
  {
    (forall j | i < j < |vars| :: vars[j].key != k) && Settles(l, |vars| - i)
  }

  ghost predicate OwnLasts(vars: seq<Var>, k: string) {
    forall i: nat, l | i < |vars| && l in Own(vars[i], k) :: Lasts(vars, i, k, l)
  }

  lemma OwnLastsUnnamed(vars: seq<Var>, k: string)
    requires !Names(vars, k)
    ensures OwnLasts(vars, k) <==> OwnSettles(vars, k)
  {
    if OwnSettles(vars, k) {
      forall i: nat, l | i < |vars| && l in Own(vars[i], k) ensures Lasts(vars, i, k, l) {}
    }
    if OwnLasts(vars, k) {
      forall i, l | 0 <= i < |vars| && l in Own(vars[i], k) ensures Settles(l, |vars| - i) {
        assert Lasts(vars, i, k, l);
      }
    }
  }

  ghost predicate NoneBefore(vars: seq<Var>, k: string, j: nat)
    requires j <= |vars|
  {
    forall i: nat | i < j :: Own(vars[i], k) == []
  }

  ghost predicate SettlesFrom(vars: seq<Var>, k: string, j: nat) {
    forall i: nat, l | j <= i < |vars| && l in Own(vars[i], k) :: Settles(l, |vars| - i)
  }

  lemma NothingOwnBefore(vars: seq<Var>, k: string, j: nat)
    requires j <= |vars|
    ensures BatchOwn(vars[..j], k) == [] <==> NoneBefore(vars, k, j)
  {
    NothingOwn(vars[..j], k);
    assert forall i | 0 <= i < j :: vars[..j][i] == vars[i];
  }

  lemma OwnSettlesFrom(vars: seq<Var>, k: string, j: nat)
    requires j <= |vars|
    ensures OwnSettles(vars[j..], k) <==> SettlesFrom(vars, k, j)
  {
    var rest := vars[j..];
    if OwnSettles(rest, k) {
      forall i: nat, l | j <= i < |vars| && l in Own(vars[i], k) ensures Settles(l, |vars| - i) {
        assert vars[i] == rest[i - j] && l in Own(rest[i - j], k);
      }
    }
    if SettlesFrom(vars, k, j) {
      forall i, l | 0 <= i < |rest| && l in Own(rest[i], k) ensures Settles(l, |rest| - i) {
        assert rest[i] == vars[i + j] && l in Own(vars[i + j], k);
      }
    }
  }

  lemma SomeLine(ls: seq<string>)
    ensures ls != [] ==> ls[0] in ls
  {
  }

  lemma LaterNamed(vars: seq<Var>, k: string, j: nat)
    requires DistinctKeys(vars) && j < |vars| && vars[j].key == k
    ensures forall i: nat, l | i < |vars| :: Lasts(vars, i, k, l) <==> j <= i && Settles(l, |vars| - i)
  {
  }

  lemma OwnLastsNamed(vars: seq<Var>, k: string, j: nat)
    requires DistinctKeys(vars) && j < |vars| && vars[j].key == k
    ensures OwnLasts(vars, k) <==> BatchOwn(vars[..j], k) == [] && OwnSettles(vars[j..], k)
  {
    NothingOwnBefore(vars, k, j);
    OwnSettlesFrom(vars, k, j);
    LaterNamed(vars, k, j);
    forall i: nat | i < j ensures OwnLasts(vars, k) ==> Own(vars[i], k) == [] { SomeLine(Own(vars[i], k)); }
  }

  lemma FileForKey(trim: string -> string, content: string, vars: seq<Var>, k: string)
    requires DistinctKeys(vars) && '=' !in k
    ensures multiset(LinesFor(k, BatchFile(trim, content, vars))) == multiset(LinesFor(k, EachFile(content, vars))) <==>
            KeyAgrees(trim, vars, Lines(content), k) && OwnLasts(vars, k)
  {
    var kept := LinesFor(k, content);
    BatchFileKeyLines(trim, content, vars, k);
    EachFileKeyLines(content, vars, k);
    if Names(vars, k) {
      var j :| 0 <= j < |vars| && vars[j].key == k;
      Named(trim, kept, vars, k, j);
      OwnLastsNamed(vars, k, j);
    } else {
      Unnamed(trim, kept, vars, k);
      OwnLastsUnnamed(vars, k);
    }
  }

  /** What the law needs of a line of the value of variable `i`. */
  predicate Lasting(vars: seq<Var>, i: nat, l: string)
    requires i < |vars|
  {
    match ReadKey(l) case Failed => true case Ok(k, _) => Lasts(vars, i, k, l)
  }

  lemma OwnLastsByLine(vars: seq<Var>)
    ensures (forall k | '=' !in k :: OwnLasts(vars, k)) <==>
            (forall i: nat, l | i < |vars| && l in RawLines(Assign(vars[i])) :: Lasting(vars, i, l))
  {
    if forall k | '=' !in k :: OwnLasts(vars, k) {
      forall i: nat, l | i < |vars| && l in RawLines(Assign(vars[i])) ensures Lasting(vars, i, l) {
        if ReadKey(l).Ok? {
          var k := ReadKey(l).value;
          KeyIsRead(k, l);
          assert OwnLasts(vars, k) && l in Own(vars[i], k);
        }
      }
    }
    if forall i: nat, l | i < |vars| && l in RawLines(Assign(vars[i])) :: Lasting(vars, i, l) {
      forall k | '=' !in k ensures OwnLasts(vars, k) {
        forall i: nat, l | i < |vars| && l in Own(vars[i], k) ensures Lasts(vars, i, k, l) {
          KeyIsRead(k, l);
          assert Lasting(vars, i, l);
        }
      }
    }
  }

  /** On files and for any values, the batch editor and one upsert after another give every key the same lines,
      counted, exactly when trimming decides nothing; each line of a key not written, and each line of a value that
      looks like one, loses as many carriage returns read once as read in every file it is in; and no line of a
      value looks like one of a variable written later. */
  lemma FileBatchIsEach(trim: string -> string, content: string, vars: seq<Var>)
    requires DistinctKeys(vars)
    ensures (forall k | '=' !in k ::
               multiset(LinesFor(k, BatchFile(trim, content, vars))) ==
                   multiset(LinesFor(k, EachFile(content, vars)))) <==>
            && (forall l | l in Lines(content) :: Agreeable(trim, vars, l))
            && (forall i: nat, l | i < |vars| && l in RawLines(Assign(vars[i])) :: Lasting(vars, i, l))
  {
    forall k | '=' !in k
      ensures multiset(LinesFor(k, BatchFile(trim, content, vars))) ==
          multiset(LinesFor(k, EachFile(content, vars))) <==>
              KeyAgrees(trim, vars, Lines(content), k) && OwnLasts(vars, k)
    {
      FileForKey(trim, content, vars, k);
    }
    KeysAgreeByLine(trim, vars, Lines(content));
    OwnLastsByLine(vars);
  }
}
