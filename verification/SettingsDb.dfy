/** Flattening a settings tree into dotted keys and rebuilding it from them. */
module SettingsDb {
  import opened Json
  import opened Schema
  import opened SettingsPath

  /** A database table: dotted key to value. */
  type Table = map<string, Json>

  const OWNER := "owner_id"

  // ---------------------------------------------------------------- rebuilding

  /** The text that `from_db_map` hands to `set`. */
  function TextOf(c: Codec, v: Json): string {
    match v
    case Str(s) => s
    case Bool(b) => BoolText(b)
    case Num(n) => Decimal(n)
    case _ => c.show(v)
  }

  /** One turn of the rebuilding loop. */
  function Apply(c: Codec, s: Schema, tree: Json, key: string, v: Json): Json {
    if key == OWNER || v == Null then tree
    else OrElse(SetPath(c, s, tree, SplitDots(key), TextOf(c, v)), tree)
  }

  /** The loop over the table in the given order. */
  function ApplyAll(c: Codec, s: Schema, tree: Json, order: seq<string>, t: Table): Json
    requires forall i | 0 <= i < |order| :: order[i] in t
    decreases |order|
  {
    if order == [] then tree
    else ApplyAll(c, s, Apply(c, s, tree, order[0], t[order[0]]), order[1..], t)
  }

  /** The order lists each of the keys once. */
  ghost predicate Lists(order: seq<string>, keys: set<string>) {
    && (forall i | 0 <= i < |order| :: order[i] in keys)
    && (forall i, j | 0 <= i < j < |order| :: order[i] != order[j])
    && (forall k | k in keys :: k in order)
  }

  predicate Applies(key: string, v: Json) { key != OWNER && v != Null }

  /** No key that is applied is a dotted prefix of another. */
  ghost predicate PrefixFree(t: Table) {
    forall k, l | k in t && l in t && k != l && Applies(k, t[k]) && Applies(l, t[l]) ::
      !(SplitDots(k) <= SplitDots(l))
  }

  lemma ApplyKeepsType(c: Codec, s: Schema, tree: Json, key: string, v: Json)
    requires WellFormed(s) && Typed(s, tree)
    ensures Typed(s, Apply(c, s, tree, key, v))
  {
    SetKeepsType(c, s, tree, SplitDots(key), TextOf(c, v));
  }

  lemma ApplyIsPut(c: Codec, s: Schema, tree: Json, key: string, v: Json)
    requires WellFormed(s) && Typed(s, tree) && Applies(key, v)
    ensures Some(Apply(c, s, tree, key, v)) == Put(c, Root(s), Some(tree), SplitDots(key), TextOf(c, v))
  {
    SetIsPut(c, Root(s), tree, SplitDots(key), TextOf(c, v));
  }

  lemma ApplyCommutes(c: Codec, s: Schema, tree: Json, t: Table, k: string, l: string)
    requires WellFormed(s) && Typed(s, tree) && PrefixFree(t) && k in t && l in t && k != l
    ensures Apply(c, s, Apply(c, s, tree, k, t[k]), l, t[l]) == Apply(c, s, Apply(c, s, tree, l, t[l]), k, t[k])
  {
    if Applies(k, t[k]) && Applies(l, t[l]) {
      ApplyKeepsType(c, s, tree, k, t[k]);
      ApplyKeepsType(c, s, tree, l, t[l]);
      ApplyIsPut(c, s, tree, k, t[k]);
      ApplyIsPut(c, s, tree, l, t[l]);
      ApplyIsPut(c, s, Apply(c, s, tree, k, t[k]), l, t[l]);
      ApplyIsPut(c, s, Apply(c, s, tree, l, t[l]), k, t[k]);
      PutCommutes(c, Root(s), Some(tree), SplitDots(k), TextOf(c, t[k]), SplitDots(l), TextOf(c, t[l]));
    }
  }

  lemma TailWithout(order: seq<string>, i: nat)
    requires 0 < i < |order|
    ensures var rest := order[..i] + order[i + 1..];
            rest[0] == order[0] && rest[1..] == order[1..][..i - 1] + order[1..][i..] && order[1..][i - 1] == order[i]
  {
  }

  /** Applying the key at position `i` first makes no difference. */
  lemma {:induction false} MoveToFront(c: Codec, s: Schema, tree: Json, order: seq<string>, t: Table, i: nat)
    requires WellFormed(s) && Typed(s, tree) && PrefixFree(t) && i < |order|
    requires forall j | 0 <= j < |order| :: order[j] in t
    requires forall j | 0 <= j < i :: order[j] != order[i]
    ensures ApplyAll(c, s, tree, order, t) ==
            ApplyAll(c, s, Apply(c, s, tree, order[i], t[order[i]]), order[..i] + order[i + 1..], t)
    decreases i
  {
    var rest := order[..i] + order[i + 1..];
    if i == 0 {
      assert rest == order[1..];
    } else {
      var first := Apply(c, s, tree, order[0], t[order[0]]);
      ApplyKeepsType(c, s, tree, order[0], t[order[0]]);
      MoveToFront(c, s, first, order[1..], t, i - 1);
      ApplyCommutes(c, s, tree, t, order[0], order[i]);
      TailWithout(order, i);
    }
  }

  /** Rebuilding does not depend on the order in which the table is walked. */
  lemma {:induction false} RebuildAnyOrder(c: Codec, s: Schema, tree: Json, t: Table, keys: set<string>,
                                           a: seq<string>, b: seq<string>)
    requires WellFormed(s) && Typed(s, tree) && PrefixFree(t) && keys <= t.Keys
    requires Lists(a, keys) && Lists(b, keys)
    ensures ApplyAll(c, s, tree, a, t) == ApplyAll(c, s, tree, b, t)
    decreases |a|
  {
    if a == [] {
      assert keys == {} && b == [];
    } else {
      var k := a[0];
      var i :| 0 <= i < |b| && b[i] == k;
      MoveToFront(c, s, tree, b, t, i);
      ApplyKeepsType(c, s, tree, k, t[k]);
      var rest := b[..i] + b[i + 1..];
      ListsRest(a, keys, 0);
      ListsRest(b, keys, i);
      assert a[..0] + a[1..] == a[1..];
      RebuildAnyOrder(c, s, Apply(c, s, tree, k, t[k]), t, keys - {k}, a[1..], rest);
    }
  }

  lemma ListsRest(order: seq<string>, keys: set<string>, i: nat)
    requires Lists(order, keys) && i < |order|
    ensures Lists(order[..i] + order[i + 1..], keys - {order[i]})
  {
    var rest := order[..i] + order[i + 1..];
    assert forall j | 0 <= j < |rest| :: rest[j] == order[if j < i then j else j + 1];
    forall k | k in keys - {order[i]} ensures k in rest {
      var j :| 0 <= j < |order| && order[j] == k;
      assert rest[if j < i then j else j - 1] == k;
    }
  }

  // ---------------------------------------------------------------- rows that lie one below the other

  /** The place at `p` and what it holds; `None` when the path does not lead there. */
  function Place(f: Field, e: Option<Json>, p: Path): Option<(Field, Option<Json>)>
    decreases |p|
  {
    if p == [] then Some((f, e))
    else if e.None? || !e.value.Obj? || Slot(f.schema, p[0]).None? then None
    else Place(Slot(f.schema, p[0]).value, Lookup(e.value.members, p[0]), p[1..])
  }

  /** A text that is read where `e` is found. */
  predicate Accepted(c: Codec, f: Field, e: Option<Json>, text: string) {
    Infer(c, e, text).Success? && Decode(f.schema, Infer(c, e, text).value).Some?
  }

  /** What a text that is read is held as; `None` when it is left out. */
  function Held(c: Codec, f: Field, e: Option<Json>, text: string): Option<Json>
    requires Accepted(c, f, e, text)
  {
    var v := Decode(f.schema, Infer(c, e, text).value).value;
    if Omits(f, v) then None else Some(v)
  }

  /** The upper row is refused; or in what it is held as, the path of the lower one leads nowhere, or to a place where
      the lower text is refused or is held as what is there already. */
  predicate Settled(c: Codec, place: (Field, Option<Json>), x: string, below: Path, y: string) {
    var (f, e) := place;
    Accepted(c, f, e, x) ==>
      match Place(f, Held(c, f, e, x), below)
      case None => true
      case Some((g, h)) => Accepted(c, g, h, y) ==> Held(c, g, h, y) == h
  }

  lemma LeafIsHeld(c: Codec, f: Field, e: Option<Json>, text: string)
    ensures PutLeaf(c, f, e, text) == if Accepted(c, f, e, text) then Held(c, f, e, text) else e
  {
  }

  /** Setting a text changes nothing exactly when it is refused or is there already. */
  lemma {:induction false} PutIsIdle(c: Codec, f: Field, e: Option<Json>, p: Path, text: string)
    ensures Put(c, f, e, p, text) == e <==>
            match Place(f, e, p)
            case None => true
            case Some((g, h)) => Accepted(c, g, h, text) ==> Held(c, g, h, text) == h
    decreases |p|
  {
    if p == [] {
      LeafIsHeld(c, f, e, text);
    } else if e.Some? && e.value.Obj? && Slot(f.schema, p[0]).Some? {
      var m, k, g := e.value.members, p[0], Slot(f.schema, p[0]).value;
      PutIsIdle(c, g, Lookup(m, k), p[1..], text);
      StoreTwice(m, k, Put(c, g, Lookup(m, k), p[1..], text));
      assert Store(m, k, Lookup(m, k)) == m;
    }
  }

  lemma SettledHere(c: Codec, f: Field, e: Option<Json>, x: string, below: Path, y: string)
    requires below != []
    ensures PutLeaf(c, f, Put(c, f, e, below, y), x) == Put(c, f, PutLeaf(c, f, e, x), below, y) <==>
            Settled(c, (f, e), x, below, y)
  {
    LeafIsHeld(c, f, e, x);
    PutIsIdle(c, f, PutLeaf(c, f, e, x), below, y);
    if e.Some? && e.value.Obj? { OnlyKindMatters(c, f, e, Put(c, f, e, below, y), x); }
  }

  /** Over an object, what a text is read as does not depend on the object. */
  lemma OnlyKindMatters(c: Codec, f: Field, e: Option<Json>, d: Option<Json>, x: string)
    requires e.Some? && e.value.Obj? && d.Some? && d.value.Obj?
    ensures PutLeaf(c, f, d, x) == if Accepted(c, f, e, x) then PutLeaf(c, f, e, x) else d
  {
  }

  lemma {:induction false} PrefixedPuts(c: Codec, f: Field, e: Option<Json>, p: Path, x: string, below: Path, y: string)
    requires below != []
    ensures Put(c, f, Put(c, f, e, p + below, y), p, x) == Put(c, f, Put(c, f, e, p, x), p + below, y) <==>
            (Place(f, e, p).Some? ==> Settled(c, Place(f, e, p).value, x, below, y))
    decreases |p|
  {
    if p == [] {
      assert p + below == below;
      SettledHere(c, f, e, x, below, y);
    } else if e.Some? && e.value.Obj? && Slot(f.schema, p[0]).Some? {
      var m, k, g := e.value.members, p[0], Slot(f.schema, p[0]).value;
      assert (p + below)[1..] == p[1..] + below;
      PrefixedPuts(c, g, Lookup(m, k), p[1..], x, below, y);
      StoreTwice(m, k, Put(c, g, Lookup(m, k), p[1..] + below, y));
      StoreTwice(m, k, Put(c, g, Lookup(m, k), p[1..], x));
      StoreTwice(m, k, Put(c, g, Put(c, g, Lookup(m, k), p[1..] + below, y), p[1..], x));
      StoreTwice(m, k, Put(c, g, Put(c, g, Lookup(m, k), p[1..], x), p[1..] + below, y));
    }
  }

  /** When the key of one row is a dotted prefix of another's, the two orders agree exactly when the path does
      not lead to the place, the upper row is refused there, or what it puts there already agrees with the
      lower one. */
  lemma PrefixedRowsDependOnOrder(c: Codec, s: Schema, tree: Json, t: Table, k: string, l: string, below: Path)
    requires WellFormed(s) && Typed(s, tree) && k in t && l in t && Applies(k, t[k]) && Applies(l, t[l])
    requires below != [] && SplitDots(l) == SplitDots(k) + below
    ensures
      var place := Place(Root(s), Some(tree), SplitDots(k));
      Apply(c, s, Apply(c, s, tree, l, t[l]), k, t[k]) == Apply(c, s, Apply(c, s, tree, k, t[k]), l, t[l]) <==>
      (place.Some? ==> Settled(c, place.value, TextOf(c, t[k]), below, TextOf(c, t[l])))
  {
    ApplyKeepsType(c, s, tree, k, t[k]);
    ApplyKeepsType(c, s, tree, l, t[l]);
    ApplyIsPut(c, s, tree, k, t[k]);
    ApplyIsPut(c, s, tree, l, t[l]);
    ApplyIsPut(c, s, Apply(c, s, tree, k, t[k]), l, t[l]);
    ApplyIsPut(c, s, Apply(c, s, tree, l, t[l]), k, t[k]);
    PrefixedPuts(c, Root(s), Some(tree), SplitDots(k), TextOf(c, t[k]), below, TextOf(c, t[l]));
  }

  // ---------------------------------------------------------------- a table that depends on the order

  /** A schema with a map of whole numbers under the key, empty by default, as `wasm_channel_owner_ids` is. */
  ghost predicate HasMap(s: Schema, d: Json, a: string) {
    && WellFormed(s) && Typed(s, d) && d.Obj?
    && Slot(s, a) == Some(Field(Dict(Integer(MIN_I64, MAX_I64)), None, false))
    && a in d.members && d.members[a] == Obj(map[])
  }

  lemma UpperIsHeld(c: Codec, f: Field, e: Json, x: string, w: Json)
    requires c.parse(x) == Some(w) && Decode(f.schema, w) == Some(w) && !f.omitNull && e.Obj?
    ensures Accepted(c, f, Some(e), x) && Held(c, f, Some(e), x) == Some(w)
  {
  }

  lemma LowerIsHeld(c: Codec, f: Field, m: map<string, Json>, p: Path, n: Whole)
    requires f.schema == Dict(Integer(MIN_I64, MAX_I64)) && p != [] && p[1..] == [] && p[0] in m
    requires m[p[0]].Num? && m[p[0]].n >= 0 && 0 <= n <= MAX_I64 && n != m[p[0]].n
    ensures var g := Field(Integer(MIN_I64, MAX_I64), None, false);
            && Place(f, Some(Obj(m)), p) == Some((g, Some(m[p[0]])))
            && Accepted(c, g, Some(m[p[0]]), Decimal(n)) && Held(c, g, Some(m[p[0]]), Decimal(n)) == Some(Num(n))
  {
    ParseIntegerInverts(n);
    assert Lookup(m, p[0]) == Some(m[p[0]]);
  }

  lemma MapIsRead(f: Field, b: string, w: Json)
    requires f == Field(Dict(Integer(MIN_I64, MAX_I64)), None, false) && w == Obj(map[b := Num(1)])
    ensures Decode(f.schema, w) == Some(w)
  {
    assert Typed(f.schema, w) && WellFormed(f.schema);
    TypedDecodes(f.schema, w);
  }

  lemma RowsAreUnsettled(c: Codec, f: Field, e: Json, b: string, x: string, w: Json, n: Whole, below: Path)
    requires f == Field(Dict(Integer(MIN_I64, MAX_I64)), None, false) && e.Obj? && c.parse(x) == Some(w)
    requires w == Obj(map[b := Num(1)]) && 1 < n <= MAX_I64 && below == [b]
    ensures !Settled(c, (f, Some(e)), x, below, Decimal(n))
  {
    MapIsRead(f, b, w);
    UpperIsHeld(c, f, e, x, w);
    assert below[1..] == [];
    LowerIsHeld(c, f, w.members, below, n);
  }

  lemma PathsOfRows(a: string, b: string)
    requires Dotless(a) && Dotless(b)
    ensures SplitDots(a) == [a] && SplitDots(JoinDots([a, b])) == [a] + [b]
  {
    SplitInvertsJoin([a]);
    SplitInvertsJoin([a, b]);
    assert [a, b] == [a] + [b];
  }

  lemma MemberPlace(s: Schema, d: Json, a: string, p: Path)
    requires HasMap(s, d, a) && p == [a]
    ensures Place(Root(s), Some(d), p) == Some((Field(Dict(Integer(MIN_I64, MAX_I64)), None, false), Some(Obj(map[]))))
  {
    assert p[1..] == [];
  }

  lemma TwoRows(c: Codec, s: Schema, d: Json, t: Table, k: string, l: string)
    requires k in t && l in t
    ensures ApplyAll(c, s, d, [k, l], t) == Apply(c, s, Apply(c, s, d, k, t[k]), l, t[l])
  {
    var order, next := [k, l], Apply(c, s, d, k, t[k]);
    assert order[1..] == [l];
    LastRow(c, s, next, t, l);
    assert ApplyAll(c, s, d, order, t) == ApplyAll(c, s, next, order[1..], t);
  }

  lemma LastRow(c: Codec, s: Schema, tree: Json, t: Table, l: string)
    requires l in t
    ensures ApplyAll(c, s, tree, [l], t) == Apply(c, s, tree, l, t[l])
  {
    assert [l][1..] == [];
    assert ApplyAll(c, s, Apply(c, s, tree, l, t[l]), [], t) == Apply(c, s, tree, l, t[l]);
  }

  lemma TwoKeys(t: Table, k: string, l: string)
    requires k != l && t.Keys == {k, l}
    ensures Lists([k, l], t.Keys)
  {
  }

  /** Two rows that are not settled at the upper one's place. */
  lemma OrdersDiffer(c: Codec, s: Schema, d: Json, t: Table, k: string, l: string, below: Path,
                     place: (Field, Option<Json>))
    requires WellFormed(s) && Typed(s, d) && k in t && l in t && Applies(k, t[k]) && Applies(l, t[l])
    requires below != [] && SplitDots(l) == SplitDots(k) + below && Place(Root(s), Some(d), SplitDots(k)) == Some(place)
    requires !Settled(c, place, TextOf(c, t[k]), below, TextOf(c, t[l]))
    ensures ApplyAll(c, s, d, [k, l], t) != ApplyAll(c, s, d, [l, k], t)
  {
    PrefixedRowsDependOnOrder(c, s, d, t, k, l, below);
    TwoRows(c, s, d, t, k, l);
    TwoRows(c, s, d, t, l, k);
  }

  /** From the defaults, a row for such a map and a row for a number in it: the two orders rebuild different
      settings. */
  lemma OrderMatters(c: Codec, s: Schema, d: Json, a: string, b: string, n: Whole, l: string, t: Table)
    requires c.Lawful() && HasMap(s, d, a) && Dotless(a) && Dotless(b) && l == JoinDots([a, b]) && 1 < n <= MAX_I64
    requires a != OWNER && l != OWNER && a != l && t.Keys == {a, l} && t[a] == Obj(map[b := Num(1)]) && t[l] == Num(n)
    ensures Lists([a, l], t.Keys) && Lists([l, a], t.Keys)
    ensures ApplyAll(c, s, d, [a, l], t) != ApplyAll(c, s, d, [l, a], t)
  {
    var f, e, p, below := Field(Dict(Integer(MIN_I64, MAX_I64)), None, false), Obj(map[]), [a], [b];
    TwoKeys(t, a, l);
    TwoKeys(t, l, a);
    PathsOfRows(a, b);
    MemberPlace(s, d, a, p);
    assert c.parse(c.show(t[a])) == Some(t[a]);
    RowsAreUnsettled(c, f, e, b, c.show(t[a]), t[a], n, below);
    OrdersDiffer(c, s, d, t, a, l, below, (f, Some(e)));
  }
}
