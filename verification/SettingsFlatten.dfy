/** The table that settings are stored in, whatever their keys: a dot inside a key makes its rows unreachable. */
module SettingsFlatten {
  import opened Json
  import opened Schema
  import opened SettingsPath
  import opened SettingsDb
  import opened SettingsRoundTrip

  /** The settings are a struct: no field is nameless, and no key of the defaults has a dot in it. */
  ghost predicate IsStruct(s: Schema, d: Json) {
    s.Record? && "" !in s.fields && d.Obj? && DotlessKeys(d)
  }

  function Extend(prefix: string, key: string): string {
    if prefix == "" then key else prefix + "." + key
  }

  /** The key under which the leaf at `p` is stored. */
  function PathString(prefix: string, p: Path): string
    decreases |p|
  {
    if p == [] then prefix else PathString(Extend(prefix, p[0]), p[1..])
  }

  /** Entry `k` of `r` was there before, or is a leaf of `value`. */
  ghost predicate FromLeaf(value: Json, prefix: string, r: Table, k: string)
    requires k in r
  {
    exists p :: LeafAt(value, p) == Some(r[k]) && PathString(prefix, p) == k
  }

  /** The table holds every leaf of the tree under its key, but for the owner, and nothing else. Leaves whose
      keys are the same share a row. */
  ghost predicate Stored(j: Json, t: Table) {
    && (forall k | k in t :: k != OWNER && FromLeaf(j, "", t, k))
    && (forall p | LeafAt(j, p).Some? :: PathString("", p) != OWNER ==> PathString("", p) in t)
  }

  lemma {:induction false} PathStringJoins(prefix: string, p: Path)
    requires prefix != ""
    ensures PathString(prefix, p) == JoinDots([prefix] + p)
    decreases |p|
  {
    assert ([prefix] + p)[1..] == p;
    if p != [] {
      var q := [Extend(prefix, p[0])] + p[1..];
      PathStringJoins(Extend(prefix, p[0]), p[1..]);
      assert q[1..] == p[1..];
      if |p| > 1 { assert prefix + "." + p[0] + "." + JoinDots(p[1..]) == prefix + "."
          + (p[0] + "." + JoinDots(p[1..])); }
    }
  }

  /** With keys free of dots the stored keys are the dotted paths, so nothing collides. */
  lemma StoredIsFlattened(j: Json, t: Table)
    requires j.Obj? && DotlessKeys(j) && "" !in j.members && Stored(j, t)
    ensures Flattened(j, t)
  {
    forall p | LeafAt(j, p).Some? ensures SplitDots(PathString("", p)) == p {
      LeafPathIsDotless(j, p);
      PathStringJoins(p[0], p[1..]);
      assert [p[0]] + p[1..] == p;
      SplitInvertsJoin(p);
    }
    forall key | key != OWNER && LeafAt(j, SplitDots(key)).Some? ensures key in t {
      var p := SplitDots(key);
      SplitIsDotless(key);
      SplitIsDotless(PathString("", p));
    }
  }

  // ---------------------------------------------------------------- keys with dots in them

  predicate DotlessPath(p: Path) { forall i | 0 <= i < |p| :: Dotless(p[i]) }

  lemma {:induction false} SplitOfJoined(a: string, s: string)
    ensures |SplitDots(a + "." + s)| == |SplitDots(a)| + |SplitDots(s)|
  {
    if a == "" {
      assert a + "." + s == "." + s && ("." + s)[1..] == s;
    } else {
      assert (a + "." + s)[1..] == a[1..] + "." + s;
      SplitOfJoined(a[1..], s);
    }
  }

  lemma {:induction false} DotSplits(s: string)
    ensures |SplitDots(s)| == 1 <==> Dotless(s)
  {
    if s != "" {
      DotSplits(s[1..]);
      assert s == [s[0]] + s[1..];
    }
  }

  /** A dot inside a part makes the path read back longer. */
  lemma {:induction false} JoinedReadsLonger(p: Path)
    requires p != []
    ensures |SplitDots(JoinDots(p))| >= |p|
    ensures !DotlessPath(p) ==> |SplitDots(JoinDots(p))| > |p|
  {
    DotSplits(p[0]);
    if |p| > 1 {
      JoinedReadsLonger(p[1..]);
      SplitOfJoined(p[0], JoinDots(p[1..]));
      if Dotless(p[0]) && DotlessPath(p[1..]) {
        forall i | 0 <= i < |p| ensures Dotless(p[i]) { if i > 0 { assert p[i] == p[1..][i - 1]; } }
      }
    }
  }

  /** The path leads somewhere, and its last key is the first with a dot in it. */
  ghost predicate DottedAt(j: Json, p: Path) {
    p != [] && At(Some(j), p).Some? && !Dotless(p[|p| - 1]) && DotlessPath(p[..|p| - 1])
  }

  lemma {:induction false} DottedSomewhere(j: Json) returns (p: Path)
    requires !DotlessKeys(j)
    ensures DottedAt(j, p)
  {
    var k :| k in j.members && !(Dotless(k) && DotlessKeys(j.members[k]));
    if Dotless(k) {
      var q := DottedSomewhere(j.members[k]);
      p := [k] + q;
      assert p[1..] == q && p[..|p| - 1] == [k] + q[..|q| - 1];
    } else {
      p := [k];
      assert p[1..] == [];
    }
  }

  /** One as near to the root as any. */
  lemma {:induction false} Nearest(j: Json, p: Path) returns (q: Path)
    requires DottedAt(j, p)
    ensures DottedAt(j, q) && forall r | DottedAt(j, r) :: |q| <= |r|
    decreases |p|
  {
    if r :| DottedAt(j, r) && |r| < |p| {
      q := Nearest(j, r);
    } else {
      q := p;
    }
  }

  lemma {:induction false} PrefixLeads(j: Json, p: Path, n: nat)
    requires At(Some(j), p).Some? && n <= |p|
    ensures At(Some(j), p[..n]).Some?
    ensures n < |p| ==> At(Some(j), p[..n]).value.Obj?
    decreases n
  {
    if n > 0 {
      PrefixLeads(j.members[p[0]], p[1..], n - 1);
      assert p[..n][1..] == p[1..][..n - 1];
    }
  }

  lemma {:induction false} LeafLeads(j: Json, p: Path)
    requires LeafAt(j, p).Some?
    ensures At(Some(j), p) == LeafAt(j, p) && !At(Some(j), p).value.Obj?
    decreases |p|
  {
    if p != [] { LeafLeads(j.members[p[0]], p[1..]); }
  }

  /** A leaf path with a dot in a key passes a first such key. */
  lemma {:induction false} FirstDotted(p: Path) returns (n: nat)
    requires !DotlessPath(p)
    ensures n < |p| && !Dotless(p[n]) && DotlessPath(p[..n])
  {
    if Dotless(p[0]) {
      var m := FirstDotted(p[1..]);
      n := m + 1;
      forall i | 0 <= i < n ensures Dotless(p[i]) { if i > 0 { assert p[i] == p[1..][..m][i - 1]; } }
    } else {
      n := 0;
    }
  }

  lemma DottedIsNoPrefix(p: Path, q: Path)
    requires p != [] && !Dotless(p[|p| - 1]) && DotlessPath(q)
    ensures !(p <= q)
  {
    if |p| <= |q| { assert Dotless(q[|p| - 1]); }
  }

  lemma LeafIsNoPrefix(v: Json, p: Path, leaf: Path)
    requires LeafAt(v, leaf).Some? && DotlessPath(leaf) && DottedAt(v, p)
    ensures !(leaf <= p)
  {
    LeafLeads(v, leaf);
    if |leaf| < |p| {
      PrefixLeads(v, p, |leaf|);
      assert leaf != p[..|leaf|];
    } else if |leaf| == |p| {
      assert Dotless(leaf[|p| - 1]);
    }
  }

  lemma KeyOfLeaf(v: Json, leaf: Path)
    requires v.Obj? && "" !in v.members && LeafAt(v, leaf).Some?
    ensures leaf != [] && PathString("", leaf) == JoinDots(leaf)
  {
    PathStringJoins(leaf[0], leaf[1..]);
    assert [leaf[0]] + leaf[1..] == leaf;
  }

  lemma DottedLeafReadsLonger(v: Json, p: Path, leaf: Path)
    requires leaf != [] && LeafAt(v, leaf).Some? && !DotlessPath(leaf)
    requires forall r | DottedAt(v, r) :: |p| <= |r|
    ensures |SplitDots(JoinDots(leaf))| > |p|
  {
    var n := FirstDotted(leaf);
    LeafLeads(v, leaf);
    PrefixLeads(v, leaf, n + 1);
    assert leaf[..n + 1][..n] == leaf[..n];
    assert DottedAt(v, leaf[..n + 1]);
    JoinedReadsLonger(leaf);
  }

  /** No row's key leads to a nearest dotted place, nor above it. */
  lemma RowsMissIt(v: Json, p: Path, leaf: Path)
    requires v.Obj? && "" !in v.members && LeafAt(v, leaf).Some?
    requires DottedAt(v, p) && forall r | DottedAt(v, r) :: |p| <= |r|
    ensures Diverge(SplitDots(PathString("", leaf)), p)
  {
    KeyOfLeaf(v, leaf);
    var key := JoinDots(leaf);
    SplitIsDotless(key);
    DottedIsNoPrefix(p, SplitDots(key));
    if DotlessPath(leaf) {
      SplitInvertsJoin(leaf);
      LeafIsNoPrefix(v, p, leaf);
    } else {
      DottedLeafReadsLonger(v, p, leaf);
    }
  }

  lemma {:induction false} RebuildMisses(c: Codec, s: Schema, tree: Json, t: Table, order: seq<string>, p: Path)
    requires WellFormed(s) && Typed(s, tree) && forall i | 0 <= i < |order| :: order[i] in t
    requires forall k | k in t && Applies(k, t[k]) :: Diverge(SplitDots(k), p)
    ensures At(Some(ApplyAll(c, s, tree, order, t)), p) == At(Some(tree), p)
    decreases |order|
  {
    if order != [] {
      var k := order[0];
      var next := Apply(c, s, tree, k, t[k]);
      ApplyKeepsType(c, s, tree, k, t[k]);
      RebuildMisses(c, s, next, t, order[1..], p);
      if Applies(k, t[k]) {
        ApplyIsPut(c, s, tree, k, t[k]);
        PutFrame(c, Root(s), Some(tree), SplitDots(k), TextOf(c, t[k]), p);
      }
    }
  }

  lemma {:induction false} DotlessTreeLacks(j: Json, p: Path)
    requires DotlessKeys(j) && At(Some(j), p).Some?
    ensures DotlessPath(p)
    decreases |p|
  {
    if p != [] {
      DotlessTreeLacks(j.members[p[0]], p[1..]);
      forall i | 0 <= i < |p| ensures Dotless(p[i]) { if i > 0 { assert p[i] == p[1..][i - 1]; } }
    }
  }

  /** Settings with a dot inside a key never come back: no row reaches the place. */
  lemma DottedIsLost(c: Codec, s: Schema, d: Json, v: Json, t: Table, order: seq<string>)
    requires WellFormed(s) && IsStruct(s, d) && Typed(s, d) && v.Obj? && "" !in v.members
    requires Stored(v, t) && Lists(order, t.Keys) && !DotlessKeys(v)
    ensures ApplyAll(c, s, d, order, t) != v
  {
    var somewhere := DottedSomewhere(v);
    var p := Nearest(v, somewhere);
    forall k | k in t ensures Diverge(SplitDots(k), p) {
      var leaf :| LeafAt(v, leaf) == Some(t[k]) && PathString("", leaf) == k;
      RowsMissIt(v, p, leaf);
    }
    RebuildMisses(c, s, d, t, order, p);
    if At(Some(d), p).Some? { DotlessTreeLacks(d, p); }
  }

  /** The round trip of any settings, in any order of the table's keys: they come back exactly when no key has a
      dot in it and they survive over the defaults. */
  lemma StoredRoundTrip(c: Codec, s: Schema, d: Json, v: Json, t: Table, order: seq<string>)
    requires c.Lawful() && WellFormed(s) && IsStruct(s, d) && Typed(s, d) && Typed(s, v) && v.Obj?
    requires Stored(v, t) && Lists(order, t.Keys)
    ensures ApplyAll(c, s, d, order, t) == v <==> DotlessKeys(v) && RootSurvives(c, d, v)
  {
    if DotlessKeys(v) {
      StoredIsFlattened(v, t);
      RoundTrip(c, s, d, v, t, order);
    } else {
      DottedIsLost(c, s, d, v, t, order);
    }
  }

  /** A kind of value that occurs in the settings and is lost: an object where the default is null or
      has no such key, such as `transcription`, or an entry of `llm_builtin_overrides`. */
  lemma ObjectOverNullIsLost(c: Codec, s: Schema, d: Json, v: Json, t: Table, order: seq<string>, k: string)
    requires c.Lawful() && WellFormed(s) && IsStruct(s, d) && Typed(s, d) && Typed(s, v) && v.Obj?
    requires Stored(v, t) && Lists(order, t.Keys)
    requires k in v.members && v.members[k].Obj? && (k in d.members ==> d.members[k] == Null)
    ensures ApplyAll(c, s, d, order, t) != v
  {
    StoredRoundTrip(c, s, d, v, t, order);
    assert !MemberSurvives(c, Lookup(d.members, k), v.members[k], k);
  }
}
