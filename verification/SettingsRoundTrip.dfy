/** Which settings survive being flattened into the database and rebuilt from it. */
module SettingsRoundTrip {
  import opened Json
  import opened Schema
  import opened SettingsPath
  import opened SettingsDb

  /** The value at a path, when it is not an object. */
  function LeafAt(j: Json, p: Path): Option<Json>
    decreases |p|
  {
    if p == [] then (if j.Obj? then None else Some(j))
    else if j.Obj? && p[0] in j.members then LeafAt(j.members[p[0]], p[1..])
    else None
  }

  ghost predicate DotlessKeys(j: Json) {
    j.Obj? ==> forall k | k in j.members :: Dotless(k) && DotlessKeys(j.members[k])
  }

  /** The table holds exactly the leaves of the tree under their dotted paths, but for the owner. */
  ghost predicate Flattened(j: Json, t: Table) {
    && (forall key | key in t :: key != OWNER && LeafAt(j, SplitDots(key)) == Some(t[key]))
    && (forall key | key != OWNER && LeafAt(j, SplitDots(key)).Some? :: key in t)
  }

  lemma {:induction false} LeavesDoNotNest(j: Json, p: Path, q: Path)
    requires LeafAt(j, p).Some? && LeafAt(j, q).Some? && p <= q
    ensures p == q
    decreases |p|
  {
    if p != [] { LeavesDoNotNest(j.members[p[0]], p[1..], q[1..]); }
  }

  /** Flattening always yields a table whose rebuilding is independent of the order. */
  lemma FlattenedIsPrefixFree(j: Json, t: Table)
    requires Flattened(j, t)
    ensures PrefixFree(t)
  {
    forall k, l | k in t && l in t && k != l && SplitDots(k) <= SplitDots(l) ensures false {
      LeavesDoNotNest(j, SplitDots(k), SplitDots(l));
      SplitIsDotless(k);
      SplitIsDotless(l);
    }
  }

  // ---------------------------------------------------------------- the tree part of the way through

  /** The paths of `ps` that go through `k`, from there on. */
  function Down(ps: set<Path>, k: string): set<Path> {
    set p | p in ps && p != [] && p[0] == k :: p[1..]
  }

  /** What a place that held `e` holds once the leaves of `v` at the paths `done` have been set. */
  function Mix(c: Codec, f: Field, e: Option<Json>, v: Json, done: set<Path>): Option<Json>
    decreases v, 0
  {
    if !v.Obj? then
      if [] in done && v != Null then PutLeaf(c, f, e, TextOf(c, v)) else e
    else if e.None? || !e.value.Obj? then e
    else
      var m := e.value.members;
      Some(Obj(map k | k in m.Keys + v.members.Keys && MixMember(c, f, m, v, done, k).Some?
                 :: MixMember(c, f, m, v, done, k).value))
  }

  function MixMember(c: Codec, f: Field, m: map<string, Json>, v: Json, done: set<Path>, k: string): Option<Json>
    requires v.Obj? && (k in m || k in v.members)
    decreases v, 0, 0
  {
    if k in v.members && Slot(f.schema, k).Some?
    then Mix(c, Slot(f.schema, k).value, Lookup(m, k), v.members[k], Down(done, k))
    else Lookup(m, k)
  }

  lemma MixedMembers(c: Codec, f: Field, m: map<string, Json>, v: Json, done: set<Path>)
    requires v.Obj?
    ensures forall k :: Lookup(Mix(c, f, Some(Obj(m)), v, done).value.members, k) ==
                        if k in m || k in v.members then MixMember(c, f, m, v, done, k) else None
  {
  }

  lemma SameLookups(a: map<string, Json>, b: map<string, Json>)
    requires forall k :: Lookup(a, k) == Lookup(b, k)
    ensures a == b
  {
    forall k ensures k in a <==> k in b { assert Lookup(a, k) == Lookup(b, k); }
    forall k | k in a ensures a[k] == b[k] { assert Lookup(a, k) == Lookup(b, k); }
  }

  lemma DownAfter(done: set<Path>, p: Path, k: string)
    requires p != [] && p !in done
    ensures Down(done + {p}, k) == if k == p[0] then Down(done, k) + {p[1..]} else Down(done, k)
    ensures p[1..] !in Down(done, p[0])
  {
    assert p == [p[0]] + p[1..] && forall q | q in done && q != [] && q[0] == p[0] :: q == [p[0]] + q[1..];
  }

  /** One more leaf under one key leaves the other members as they were. */
  lemma OthersStayMixed(c: Codec, f: Field, m: map<string, Json>, v: Json, done: set<Path>, p: Path)
    requires v.Obj? && p != [] && p !in done
    ensures forall i | i != p[0] ::
              Lookup(Mix(c, f, Some(Obj(m)), v, done + {p}).value.members, i) ==
              Lookup(Mix(c, f, Some(Obj(m)), v, done).value.members, i)
  {
    MixedMembers(c, f, m, v, done);
    MixedMembers(c, f, m, v, done + {p});
    forall i | i != p[0] ensures Down(done + {p}, i) == Down(done, i) { DownAfter(done, p, i); }
  }

  /** Setting one more leaf. */
  lemma {:induction false} MixStep(c: Codec, f: Field, e: Option<Json>, v: Json, done: set<Path>, p: Path)
    requires LeafAt(v, p).Some? && p !in done
    ensures Mix(c, f, e, v, done + {p}) ==
            if LeafAt(v, p).value == Null then Mix(c, f, e, v, done)
            else Put(c, f, Mix(c, f, e, v, done), p, TextOf(c, LeafAt(v, p).value))
    decreases |p|
  {
    if p == [] || e.None? || !e.value.Obj? { return; }
    var m, k := e.value.members, p[0];
    var slot := Slot(f.schema, k);
    if slot.Some? {
      DownAfter(done, p, k);
      MixStep(c, slot.value, Lookup(m, k), v.members[k], Down(done, k), p[1..]);
    }
    var before, after := Mix(c, f, e, v, done).value.members, Mix(c, f, e, v, done + {p}).value.members;
    OthersStayMixed(c, f, m, v, done, p);
    MixedMembers(c, f, m, v, done);
    MixedMembers(c, f, m, v, done + {p});
    var w := LeafAt(v, p).value;
    if w != Null && slot.Some? {
      SameLookups(after, Store(before, k, Put(c, slot.value, Lookup(before, k), p[1..], TextOf(c, w))));
    } else {
      SameLookups(after, before);
    }
  }

  // ---------------------------------------------------------------- which trees come back

  /** A leaf `v` comes back at a place whose default is `e`. Nulls are skipped on the way in, a string
      written over a null or a missing key must not be JSON text, and an integer must be of the kind
      (unsigned, or signed) that the default is of. */
  predicate LeafSurvives(c: Codec, e: Option<Json>, v: Json)
    requires !v.Obj?
  {
    match v
    case Null => e == Some(Null)
    case Str(x) => e.None? || e.value.Null? ==> c.parse(x).None?
    case Num(n) => e.Some? && e.value.Num? ==> if e.value.n >= 0 then n >= 0 else n <= MAX_I64
    case _ => true
  }

  /** A tree comes back over the default `e`: an object needs an object there, with no key it lacks. */
  predicate Survives(c: Codec, e: Option<Json>, v: Json)
    decreases v
  {
    if !v.Obj? then LeafSurvives(c, e, v)
    else
      && e.Some? && e.value.Obj?
      && e.value.members.Keys <= v.members.Keys
      && forall k | k in v.members :: Survives(c, Lookup(e.value.members, k), v.members[k])
  }

  /** The owner is never stored, so an owner that is not an object must be the default one. */
  predicate RootSurvives(c: Codec, e: Json, v: Json) {
    && v.Obj? && e.Obj?
    && e.members.Keys <= v.members.Keys
    && forall k | k in v.members :: MemberSurvives(c, Lookup(e.members, k), v.members[k], k)
  }

  /** What the parsers make of the text of a value. */
  ghost predicate TextFacts(c: Codec, v: Json) {
    var text := TextOf(c, v);
    match v
    case Str(_) => c.parse(text) != Some(v)
    case Bool(b) => c.parse(text) == Some(v) && ParseBool(text) == Some(b)
    case Num(n) =>
      && c.parse(text) == Some(v)
      && ParseU64(text) == (if 0 <= n then Some(n) else None)
      && ParseI64(text) == (if n <= MAX_I64 then Some(n) else None)
    case Float(r) => c.parse(text) == Some(v) && c.parseFloat(text) == Some(Finite(r))
    case _ => c.parse(text) == Some(v)
  }

  lemma TextFactsHold(c: Codec, v: Json)
    requires c.Lawful()
    ensures TextFacts(c, v)
  {
    if v.Num? { ParseIntegerInverts(v.n); }
    if !v.Str? { assert c.parse(c.show(v)) == Some(v); }
  }

  /** No other value is read as the string `v` by a type that has it. */
  lemma StringOnlyFromItself(s: Schema, v: Json, j: Json)
    requires v.Str? && Typed(s, v) && Decode(s, j) == Some(v)
    ensures j == v
  {
    StripTyped(s, v);
    StripTyped(s, j);
  }

  /** Over a null or a missing key. */
  lemma LeafComesBackFresh(c: Codec, f: Field, e: Option<Json>, v: Json)
    requires TextFacts(c, v) && WellFormed(f.schema) && Fits(f, Some(v)) && !v.Obj? && v != Null
    requires e == None || e == Some(Null)
    ensures PutLeaf(c, f, e, TextOf(c, v)) == Some(v) <==> (v.Str? ==> c.parse(v.s).None?)
  {
    TypedDecodes(f.schema, v);
    if v.Str? && c.parse(v.s).Some? && Decode(f.schema, c.parse(v.s).value) == Some(v) {
      StringOnlyFromItself(f.schema, v, c.parse(v.s).value);
    }
  }

  /** Two values that one place can hold, neither of them null, are of one kind. */
  lemma SameKind(s: Schema, e: Json, v: Json)
    requires Typed(s, e) && Typed(s, v) && e != Null && v != Null
    ensures v.Bool? ==> e.Bool?
    ensures v.Num? ==> e.Num?
    ensures v.Float? ==> e.Float?
    ensures v.Str? ==> e.Str?
    ensures v.Arr? ==> e.Arr?
  {
    StripTyped(s, v);
    StripTyped(s, e);
  }

  /** Over a value. */
  lemma LeafComesBackOver(c: Codec, f: Field, e: Json, v: Json)
    requires TextFacts(c, v) && WellFormed(f.schema) && Fits(f, Some(e)) && Fits(f, Some(v)) && !v.Obj?
        && v != Null && e != Null
    ensures PutLeaf(c, f, Some(e), TextOf(c, v)) == Some(v) <==> LeafSurvives(c, Some(e), v)
  {
    SameKind(f.schema, e, v);
    TypedDecodes(f.schema, v);
  }

  lemma LeafComesBack(c: Codec, f: Field, e: Option<Json>, v: Json)
    requires c.Lawful() && WellFormed(f.schema) && Fits(f, e) && Fits(f, Some(v)) && !v.Obj? && v != Null
    ensures PutLeaf(c, f, e, TextOf(c, v)) == Some(v) <==> LeafSurvives(c, e, v)
  {
    TextFactsHold(c, v);
    if e == None || e == Some(Null) { LeafComesBackFresh(c, f, e, v); } else { LeafComesBackOver(c, f, e.value, v); }
  }

  /** Once every leaf has been set, a place holds the tree exactly when the tree survives. */
  lemma {:induction false} AllLeavesSet(c: Codec, f: Field, e: Option<Json>, v: Json, done: set<Path>)
    requires c.Lawful() && WellFormed(f.schema) && Fits(f, e) && Fits(f, Some(v))
    requires forall p | LeafAt(v, p).Some? :: p in done
    ensures Mix(c, f, e, v, done) == Some(v) <==> Survives(c, e, v)
    decreases v
  {
    if !v.Obj? {
      assert LeafAt(v, []).Some?;
      if v != Null { LeafComesBack(c, f, e, v); }
    } else if e.Some? && e.value.Obj? {
      forall k | k in v.members
        ensures Slot(f.schema, k).Some?
        ensures var g, d := Slot(f.schema, k).value, Lookup(e.value.members, k);
                Mix(c, g, d, v.members[k], Down(done, k)) == Some(v.members[k]) <==> Survives(c, d, v.members[k])
      {
        MemberFits(f.schema, v, k);
        if k in e.value.members { MemberFits(f.schema, e.value, k); }
        LeavesBelow(v, k, done);
        AllLeavesSet(c, Slot(f.schema, k).value, Lookup(e.value.members, k), v.members[k], Down(done, k));
      }
      MixIsMemberwise(c, f, e.value.members, v, done);
    }
  }

  lemma LeavesBelow(v: Json, k: string, done: set<Path>)
    requires v.Obj? && k in v.members
    requires forall p | LeafAt(v, p).Some? && p != [] && p[0] == k :: p in done
    ensures forall p | LeafAt(v.members[k], p).Some? :: p in Down(done, k)
  {
    forall p | LeafAt(v.members[k], p).Some? ensures p in Down(done, k) {
      var q := [k] + p;
      assert q[1..] == p && LeafAt(v, q).Some?;
    }
  }

  lemma MixIsMemberwise(c: Codec, f: Field, m: map<string, Json>, v: Json, done: set<Path>)
    requires v.Obj?
    ensures Mix(c, f, Some(Obj(m)), v, done) == Some(v) <==>
            forall k | k in m.Keys + v.members.Keys :: MixMember(c, f, m, v, done, k) == Lookup(v.members, k)
  {
    var r := Mix(c, f, Some(Obj(m)), v, done).value.members;
    forall k | k in m.Keys + v.members.Keys ensures Lookup(r, k) == MixMember(c, f, m, v, done, k) {}
    if forall k | k in m.Keys + v.members.Keys :: MixMember(c, f, m, v, done, k) == Lookup(v.members, k) {
      assert r == v.members;
    }
  }

  /** The paths of the keys walked so far. */
  function PathsOf(order: seq<string>): set<Path> {
    set i | 0 <= i < |order| :: SplitDots(order[i])
  }

  /** The rebuilding loop, from a tree that is part of the way through. */
  lemma {:induction false} RebuildIsMix(c: Codec, s: Schema, d: Json, v: Json, t: Table, order: seq<string>,
                                        done: set<Path>, tree: Json)
    requires WellFormed(s) && Typed(s, d) && Flattened(v, t) && Typed(s, tree)
    requires Some(tree) == Mix(c, Root(s), Some(d), v, done)
    requires forall i | 0 <= i < |order| :: order[i] in t && SplitDots(order[i]) !in done
    requires forall i, j | 0 <= i < j < |order| :: order[i] != order[j]
    ensures Some(ApplyAll(c, s, tree, order, t)) == Mix(c, Root(s), Some(d), v, done + PathsOf(order))
    decreases |order|
  {
    if order == [] {
      assert done + PathsOf(order) == done;
    } else {
      var p := SplitDots(order[0]);
      var next := Apply(c, s, tree, order[0], t[order[0]]);
      MixStep(c, Root(s), Some(d), v, done, p);
      ApplyKeepsType(c, s, tree, order[0], t[order[0]]);
      if t[order[0]] != Null { ApplyIsPut(c, s, tree, order[0], t[order[0]]); }
      forall i | 1 <= i < |order| ensures SplitDots(order[i]) != p {
        SplitIsDotless(order[0]);
        SplitIsDotless(order[i]);
      }
      RebuildIsMix(c, s, d, v, t, order[1..], done + {p}, next);
      assert done + PathsOf(order) == done + {p} + PathsOf(order[1..]) by {
        assert forall i | 1 <= i < |order| :: order[i] == order[1..][i - 1];
        assert forall i | 0 <= i < |order| - 1 :: order[1..][i] == order[i + 1];
      }
    }
  }

  lemma {:induction false} NothingSet(c: Codec, f: Field, e: Option<Json>, v: Json)
    ensures Mix(c, f, e, v, {}) == e
    decreases v
  {
    if v.Obj? && e.Some? && e.value.Obj? {
      var m := e.value.members;
      forall k | k in m || k in v.members ensures MixMember(c, f, m, v, {}, k) == Lookup(m, k) {
        assert Down({}, k) == {};
        if k in v.members && Slot(f.schema, k).Some? {
          NothingSet(c, Slot(f.schema, k).value, Lookup(m, k), v.members[k]);
        }
      }
      assert Mix(c, f, e, v, {}).value.members == m;
    }
  }

  lemma {:induction false} LeafPathIsDotless(j: Json, p: Path)
    requires DotlessKeys(j) && LeafAt(j, p).Some?
    ensures forall i | 0 <= i < |p| :: Dotless(p[i])
    decreases |p|
  {
    if p != [] { LeafPathIsDotless(j.members[p[0]], p[1..]); }
  }

  /** The keys of the table reach every leaf but the owner. */
  lemma PathsReachLeaves(v: Json, t: Table, order: seq<string>)
    requires v.Obj? && DotlessKeys(v) && Flattened(v, t) && Lists(order, t.Keys)
    ensures forall p | LeafAt(v, p).Some? :: p in PathsOf(order) <==> p != [OWNER]
  {
    OwnerIsNotReached(order);
    forall p | LeafAt(v, p).Some? ensures p in PathsOf(order) <==> p != [OWNER] {
      if p != [OWNER] { LeafIsReached(v, t, order, p); }
    }
  }

  lemma LeafIsReached(v: Json, t: Table, order: seq<string>, p: Path)
    requires v.Obj? && DotlessKeys(v) && Flattened(v, t) && Lists(order, t.Keys)
    requires LeafAt(v, p).Some? && p != [OWNER]
    ensures p in PathsOf(order)
  {
    LeafPathIsDotless(v, p);
    PathOfKey(p, OWNER);
    var key := JoinDots(p);
    assert key in t.Keys;
    var i :| 0 <= i < |order| && order[i] == key;
    assert SplitDots(order[i]) == p;
  }

  lemma PathOfKey(p: Path, other: string)
    requires p != [] && (forall i | 0 <= i < |p| :: Dotless(p[i])) && p != [other] && Dotless(other)
    ensures SplitDots(JoinDots(p)) == p && JoinDots(p) != other
  {
    SplitInvertsJoin(p);
    SplitInvertsJoin([other]);
  }

  lemma OwnerIsNotReached(order: seq<string>)
    requires OWNER !in order
    ensures [OWNER] !in PathsOf(order)
  {
    forall i | 0 <= i < |order| ensures SplitDots(order[i]) != [OWNER] { SplitIsDotless(order[i]); }
  }

  predicate MemberSurvives(c: Codec, e: Option<Json>, v: Json, k: string) {
    if k == OWNER && !v.Obj? then e == Some(v) else Survives(c, e, v)
  }

  lemma OwnerIsNotSet(v: Json, done: set<Path>)
    requires v.Obj? && OWNER in v.members && !v.members[OWNER].Obj?
    requires forall p | LeafAt(v, p).Some? :: p in done <==> p != [OWNER]
    ensures [] !in Down(done, OWNER)
  {
    assert [OWNER][1..] == [];
    assert LeafAt(v, [OWNER]).Some?;
    assert forall p | p in done && p != [] && p[0] == OWNER && p[1..] == [] :: p == [OWNER];
  }

  lemma RootMember(c: Codec, s: Schema, d: Json, v: Json, done: set<Path>, k: string)
    requires c.Lawful() && WellFormed(s) && Typed(s, d) && Typed(s, v) && d.Obj? && v.Obj? && k in v.members
    requires forall p | LeafAt(v, p).Some? :: p in done <==> p != [OWNER]
    ensures MixMember(c, Root(s), d.members, v, done, k) == Some(v.members[k]) <==>
            MemberSurvives(c, Lookup(d.members, k), v.members[k], k)
  {
    MemberFits(s, v, k);
    if k in d.members { MemberFits(s, d, k); }
    if k == OWNER && !v.members[k].Obj? {
      OwnerIsNotSet(v, done);
    } else {
      assert [OWNER][1..] == [] && (k == OWNER ==> LeafAt(v, [OWNER]).None?);
      LeavesBelow(v, k, done);
      AllLeavesSet(c, Slot(s, k).value, Lookup(d.members, k), v.members[k], Down(done, k));
    }
  }

  /** The round trip through the database, in any order of the table's keys: the settings come back
      exactly when they survive over the defaults. */
  lemma RoundTrip(c: Codec, s: Schema, d: Json, v: Json, t: Table, order: seq<string>)
    requires c.Lawful() && WellFormed(s) && Typed(s, d) && Typed(s, v) && d.Obj? && v.Obj?
    requires DotlessKeys(v) && Flattened(v, t) && Lists(order, t.Keys)
    ensures ApplyAll(c, s, d, order, t) == v <==> RootSurvives(c, d, v)
  {
    var done := PathsOf(order);
    NothingSet(c, Root(s), Some(d), v);
    RebuildIsMix(c, s, d, v, t, order, {}, d);
    assert {} + done == done;
    PathsReachLeaves(v, t, order);
    forall k | k in v.members
      ensures MixMember(c, Root(s), d.members, v, done, k) == Some(v.members[k]) <==>
              MemberSurvives(c, Lookup(d.members, k), v.members[k], k)
    {
      RootMember(c, s, d, v, done, k);
    }
    MixIsMemberwise(c, Root(s), d.members, v, done);
  }

  /** Such a value, with its type: an optional record, by default none, that holds a flag. */
  lemma OptionalRecordIsTyped(record: string, flag: string)
    ensures
      var field := Field(Boolean, Some(Bool(false)), false);
      var s := Record(map[record := Field(Optional(Record(map[flag := field])), Some(Null), false)]);
      WellFormed(s) && Typed(s, Obj(map[record := Null])) && Typed(s, Obj(map[record := Obj(map[flag := Bool(true)])]))
  {
    var inner := Record(map[flag := Field(Boolean, Some(Bool(false)), false)]);
    assert WellFormed(Boolean) && Typed(Boolean, Bool(false)) && Typed(Boolean, Bool(true));
    assert WellFormed(inner) && Typed(inner, Obj(map[flag := Bool(true)]));
    assert WellFormed(Optional(inner)) && Typed(Optional(inner), Null)
        && Typed(Optional(inner), Obj(map[flag := Bool(true)]));
  }
}
