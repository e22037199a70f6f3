/** The settings object: setting and reading dotted paths, layering, and storing in the database. */
module Settings {
  import opened Json
  import opened Schema
  import opened SettingsPath
  import opened SettingsDb
  import opened SettingsRoundTrip
  import opened SettingsMerge
  import opened SettingsFlatten
  import opened SettingsText

  /** How `get` shows a value. */
  function Shown(c: Codec, v: Json): string {
    if v == Null then "null" else TextOf(c, v)
  }

  /** That is its JSON text, but for strings, which are shown without quotes. */
  lemma ShownIsJson(c: Codec, v: Json)
    requires c.Lawful()
    ensures Shown(c, v) == if v.Str? then v.s else c.show(v)
  {
  }

  class Settings {
    const codec: Codec
    const schema: Schema
    const defaults: Json
    var tree: Json

    ghost predicate Valid()
      reads this
    {
      && codec.Lawful() && WellFormed(schema)
      && IsStruct(schema, defaults) && Typed(schema, defaults)
      && tree.Obj? && Typed(schema, tree)
    }

    constructor Default(codec: Codec, schema: Schema, defaults: Json)
      requires codec.Lawful() && WellFormed(schema) && IsStruct(schema, defaults) && Typed(schema, defaults)
      ensures Valid() && tree == defaults
      ensures this.codec == codec && this.schema == schema && this.defaults == defaults
    {
      this.codec, this.schema, this.defaults, this.tree := codec, schema, defaults, defaults;
    }

    constructor Clone(other: Settings)
      requires other.Valid()
      ensures Valid() && tree == other.tree
      ensures codec == other.codec && schema == other.schema && defaults == other.defaults
    {
      codec, schema, defaults, tree := other.codec, other.schema, other.defaults, other.tree;
    }

    method Set(path: string, value: string) returns (r: Result<()>)
      requires Valid()
      modifies this
      ensures Valid()
      ensures Some(tree) == Put(codec, Root(schema), Some(old(tree)), SplitDots(path), value)
      ensures r.Failure? ==> tree == old(tree)
      ensures r.Failure? <==> SetPath(codec, schema, old(tree), SplitDots(path), value).Failure?
      ensures Outcome(codec, schema, old(tree), SplitDots(path), value,
                  if r.Success? then SettingsPath.Success(tree) else SettingsPath.Failure(r.error))
    {
      var parts := SplitDots(path);
      SetMeans(codec, schema, tree, parts, value);
      SetIsPut(codec, Root(schema), tree, parts, value);
      SetKeepsType(codec, schema, tree, parts, value);
      var json := Insert(codec, tree, parts, value);
      if json.Failure? { return Failure(json.error); }
      var applied := Decode(schema, json.value);
      if applied.None? { return Failure(NotApplicable); }
      tree := applied.value;
      r := Success(());
    }

    method Get(path: string) returns (r: Option<string>)
      ensures r == match At(Some(tree), SplitDots(path)) case None => None case Some(v) => Some(Shown(codec, v))
    {
      var parts := SplitDots(path);
      var current := tree;
      var i := 0;
      while i < |parts|
        invariant 0 <= i <= |parts|
        invariant At(Some(current), parts[i..]) == At(Some(tree), parts)
      {
        if !current.Obj? || parts[i] !in current.members { return None; }
        current := current.members[parts[i]];
        i := i + 1;
      }
      r := Some(Shown(codec, current));
    }

    method MergeFrom(other: Settings)
      requires Valid() && other.Valid() && other.schema == schema
      modifies this
      ensures Valid()
      ensures tree == Merged(old(tree), old(other.tree), defaults)
    {
      var merged := MergeNonDefault(tree, other.tree, defaults);
      MergedIsTyped(schema, tree, other.tree, defaults);
      TypedDecodes(schema, merged);
      var read := Decode(schema, merged);
      if read.Some? { tree := read.value; }
    }

    /** What rebuilding does with one row. An error is only logged. */
    method SetRow(key: string, value: Json)
      requires Valid()
      modifies this
      ensures Valid()
      ensures tree == Apply(codec, schema, old(tree), key, value)
    {
      if key == OWNER || value == Null { return; }
      SetIsPut(codec, Root(schema), tree, SplitDots(key), TextOf(codec, value));
      var _ := Set(key, TextOf(codec, value));
    }

    /** Rebuilds settings from a table, walking its keys in whatever order they come. */
    constructor FromDbMap(codec: Codec, schema: Schema, defaults: Json, table: Table)
      requires codec.Lawful() && WellFormed(schema) && IsStruct(schema, defaults) && Typed(schema, defaults)
      ensures Valid()
      ensures this.codec == codec && this.schema == schema && this.defaults == defaults
      ensures exists order :: Lists(order, table.Keys) && tree == ApplyAll(codec, schema, defaults, order, table)
      ensures PrefixFree(table) ==>
                forall order | Lists(order, table.Keys) :: tree == ApplyAll(codec, schema, defaults, order, table)
    {
      this.codec, this.schema, this.defaults, this.tree := codec, schema, defaults, defaults;
      new;
      ghost var order: seq<string> := [];
      var keys := table.Keys;
      while keys != {}
        invariant Valid() && this.codec == codec && this.schema == schema && this.defaults == defaults
        invariant keys <= table.Keys
        invariant Lists(order, table.Keys - keys)
        invariant tree == ApplyAll(codec, schema, defaults, order, table)
        decreases keys
      {
        var key :| key in keys;
        SetRow(key, table[key]);
        OneMoreRow(codec, schema, defaults, order, table, keys, key);
        order := order + [key];
        keys := keys - {key};
      }
      assert table.Keys - {} == table.Keys;
      if PrefixFree(table) { SameInAnyOrder(codec, schema, defaults, order, table); }
    }

    method ToDbMap() returns (table: Table)
      requires Valid()
      ensures Stored(tree, table)
      ensures DotlessKeys(tree) ==> Flattened(tree, table)
    {
      var all := Collect(tree, "", map[]);
      table := all - {OWNER};
      CollectedIsStored(tree, all);
      if DotlessKeys(tree) { StoredIsFlattened(tree, table); }
    }
  }

  lemma {:induction false} ApplyAllSnoc(c: Codec, s: Schema, tree: Json, order: seq<string>, t: Table, key: string)
    requires key in t && forall i | 0 <= i < |order| :: order[i] in t
    ensures ApplyAll(c, s, tree, order + [key], t) == Apply(c, s, ApplyAll(c, s, tree, order, t), key, t[key])
    decreases |order|
  {
    if order == [] {
      assert [key][1..] == [] && [] + [key] == [key];
    } else {
      assert (order + [key])[1..] == order[1..] + [key];
      ApplyAllSnoc(c, s, Apply(c, s, tree, order[0], t[order[0]]), order[1..], t, key);
    }
  }

  lemma OneMoreRow(c: Codec, s: Schema, tree: Json, order: seq<string>, t: Table, keys: set<string>, key: string)
    requires key in keys && keys <= t.Keys && Lists(order, t.Keys - keys)
    ensures Lists(order + [key], t.Keys - (keys - {key}))
    ensures ApplyAll(c, s, tree, order + [key], t) == Apply(c, s, ApplyAll(c, s, tree, order, t), key, t[key])
  {
    ApplyAllSnoc(c, s, tree, order, t, key);
    ListsSnoc(order, t.Keys - keys, key);
    assert t.Keys - keys + {key} == t.Keys - (keys - {key});
  }

  lemma SameInAnyOrder(c: Codec, s: Schema, tree: Json, order: seq<string>, t: Table)
    requires WellFormed(s) && Typed(s, tree) && PrefixFree(t) && Lists(order, t.Keys)
    ensures forall other | Lists(other, t.Keys) :: ApplyAll(c, s, tree, order, t) == ApplyAll(c, s, tree, other, t)
  {
    forall other | Lists(other, t.Keys) ensures ApplyAll(c, s, tree, order, t) == ApplyAll(c, s, tree, other, t) {
      RebuildAnyOrder(c, s, tree, t, t.Keys, order, other);
    }
  }

  lemma ListsSnoc(order: seq<string>, keys: set<string>, key: string)
    requires Lists(order, keys) && key !in keys
    ensures Lists(order + [key], keys + {key})
  {
    forall k | k in keys + {key} ensures k in order + [key] {
      if k == key { assert (order + [key])[|order|] == k; }
    }
  }

  // ---------------------------------------------------------------- flattening

  method Collect(value: Json, prefix: string, results: Table) returns (r: Table)
    ensures forall k | k in results :: k in r
    ensures forall k | k in r :: (k in results && r[k] == results[k]) || FromLeaf(value, prefix, r, k)
    ensures forall p | LeafAt(value, p).Some? :: PathString(prefix, p) in r
    decreases value
  {
    r := results;
    if value.Obj? {
      var keys := value.members.Keys;
      while keys != {}
        invariant keys <= value.members.Keys
        invariant forall k | k in results :: k in r
        invariant forall k | k in r :: (k in results && r[k] == results[k]) || FromLeaf(value, prefix, r, k)
        invariant forall p | LeafAt(value, p).Some? && p[0] !in keys :: PathString(prefix, p) in r
        decreases keys
      {
        var key :| key in keys;
        ghost var before := r;
        var val := value.members[key];
        r := Collect(val, Extend(prefix, key), r);
        forall k | k in r ensures (k in results && r[k] == results[k]) || FromLeaf(value, prefix, r, k) {
          if k in before && r[k] == before[k] {
            if !(k in results && before[k] == results[k]) {
              var p :| LeafAt(value, p) == Some(before[k]) && PathString(prefix, p) == k;
              assert LeafAt(value, p) == Some(r[k]);
            }
          } else {
            var p :| LeafAt(val, p) == Some(r[k]) && PathString(Extend(prefix, key), p) == k;
            assert ([key] + p)[1..] == p;
            assert LeafAt(value, [key] + p) == Some(r[k]) && PathString(prefix, [key] + p) == k;
          }
        }
        keys := keys - {key};
      }
    } else {
      r := r[prefix := value];
      assert LeafAt(value, []) == Some(r[prefix]) && PathString(prefix, []) == prefix;
    }
  }

  lemma CollectedIsStored(j: Json, r: Table)
    requires forall k | k in r :: FromLeaf(j, "", r, k)
    requires forall p | LeafAt(j, p).Some? :: PathString("", p) in r
    ensures Stored(j, r - {OWNER})
  {
    forall k | k in r - {OWNER} ensures FromLeaf(j, "", r - {OWNER}, k) {
      var p :| LeafAt(j, p) == Some(r[k]) && PathString("", p) == k;
      assert LeafAt(j, p) == Some((r - {OWNER})[k]);
    }
  }

  // ---------------------------------------------------------------- what the operations promise together

  lemma ShownReadsBack(c: Codec, f: Field, v: Json)
    requires c.Lawful() && WellFormed(f.schema) && Fits(f, Some(v))
    ensures PutLeaf(c, f, Some(v), Shown(c, v)) == Some(v)
  {
    if v != Null && !v.Obj? { LeafComesBack(c, f, Some(v), v); } else { WholeReadsBack(c, f, v); }
  }

  lemma WholeReadsBack(c: Codec, f: Field, v: Json)
    requires c.Lawful() && WellFormed(f.schema) && Fits(f, Some(v)) && (v == Null || v.Obj?)
    ensures PutLeaf(c, f, Some(v), c.show(v)) == Some(v)
    ensures v == Null ==> PutLeaf(c, f, Some(v), "null") == Some(v)
  {
    TypedDecodes(f.schema, v);
    assert c.parse(c.show(v)) == Some(v);
  }

  lemma IdleBelow(c: Codec, f: Field, v: Json, p: Path, slot: Field, text: string)
    requires p != [] && v.Obj? && p[0] in v.members && Slot(f.schema, p[0]) == Some(slot)
    requires Put(c, slot, Some(v.members[p[0]]), p[1..], text) == Some(v.members[p[0]])
    ensures Put(c, f, Some(v), p, text) == Some(v)
  {
    assert Store(v.members, p[0], Some(v.members[p[0]])) == v.members;
  }

  /** Writing a path's shown value back to it changes nothing, at whatever depth and of whatever kind. */
  lemma {:induction false} SetShownIsNoChange(c: Codec, f: Field, v: Json, p: Path)
    requires c.Lawful() && WellFormed(f.schema) && Fits(f, Some(v)) && At(Some(v), p).Some?
    ensures Put(c, f, Some(v), p, Shown(c, At(Some(v), p).value)) == Some(v)
    decreases |p|
  {
    if p == [] {
      ShownReadsBack(c, f, v);
    } else {
      MemberFits(f.schema, v, p[0]);
      var m, slot := v.members, Slot(f.schema, p[0]).value;
      var text := Shown(c, At(Some(v), p).value);
      SetShownIsNoChange(c, slot, m[p[0]], p[1..]);
      IdleBelow(c, f, v, p, slot, text);
    }
  }

  /** Storing settings and loading them: the outcome in terms of the settings alone. */
  method StoreAndLoad(settings: Settings) returns (loaded: Settings)
    requires settings.Valid()
    ensures fresh(loaded) && loaded.Valid()
    ensures loaded.tree == settings.tree <==>
            DotlessKeys(settings.tree) && RootSurvives(settings.codec, settings.defaults, settings.tree)
  {
    var table := settings.ToDbMap();
    loaded := new Settings.FromDbMap(settings.codec, settings.schema, settings.defaults, table);
    ghost var c, s, d, v := settings.codec, settings.schema, settings.defaults, settings.tree;
    ghost var order :| Lists(order, table.Keys) && loaded.tree == ApplyAll(c, s, d, order, table);
    StoredRoundTrip(c, s, d, v, table, order);
  }

  /** The wizard's two merges: the database into a copy of step 1, and step 1 on top again. That is step 1 straight onto
      the database; at every place a choice of step 1 that is not the default wins, and else the database's value
      survives. */
  method RecoverWizard(step1: Settings, db: Settings) returns (current: Settings)
    requires step1.Valid() && db.Valid() && db.schema == step1.schema && db.defaults == step1.defaults
    requires Steady(step1.schema, step1.defaults)
    ensures fresh(current) && current.Valid() && current.tree == Merged(db.tree, step1.tree, step1.defaults)
    ensures forall p | Frontier(step1.defaults, p) ::
              At(Some(current.tree), p) == Chosen(At(Some(step1.tree), p), At(Some(db.tree), p),
                  At(Some(step1.defaults), p))
  {
    current := new Settings.Clone(step1);
    current.MergeFrom(db);
    current.MergeFrom(step1);
    ghost var a, b, d := step1.tree, db.tree, step1.defaults;
    TypedIsComplete(step1.schema, d, a);
    TypedIsComplete(step1.schema, d, b);
    WizardRecovery(a, b, d);
    forall p | Frontier(d, p) ensures At(Some(current.tree), p) ==
        Chosen(At(Some(a), p), At(Some(b), p), At(Some(d), p)) {
      WizardOutcomeAt(a, b, d, p);
    }
  }

  /** The upper value, unless it is missing or the default. */
  function Chosen(upper: Option<Json>, lower: Option<Json>, default: Option<Json>): Option<Json> {
    if upper.Some? && upper != default then upper else lower
  }
}
