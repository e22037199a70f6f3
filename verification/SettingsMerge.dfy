/** Layering one settings tree over another: only values that differ from the default override. */
module SettingsMerge {
  import opened Json
  import opened Schema
  import opened SettingsPath
  import opened SettingsRoundTrip

  /** The default that a key is compared with: null when the defaults have no such key. */
  function DefaultAt(d: map<string, Json>, k: string): Json {
    if k in d then d[k] else Null
  }

  /** `o` layered over `t`. */
  function Merged(t: Json, o: Json, d: Json): Json
    decreases o, 0
  {
    if t.Obj? && o.Obj? && d.Obj? then
      Obj(map k | k in t.members.Keys + o.members.Keys && MergedMember(t.members, o, d.members, k).Some?
            :: MergedMember(t.members, o, d.members, k).value)
    else if o != d then o
    else t
  }

  function MergedMember(t: map<string, Json>, o: Json, d: map<string, Json>, k: string): Option<Json>
    requires o.Obj?
    decreases o, 0, 0
  {
    if k !in o.members then Lookup(t, k)
    else if k in t then Some(Merged(t[k], o.members[k], DefaultAt(d, k)))
    else if o.members[k] != DefaultAt(d, k) then Some(o.members[k])
    else None
  }

  /** The loop over the keys of `other`, in whatever order they come. */
  method MergeNonDefault(target: Json, other: Json, defaults: Json) returns (r: Json)
    ensures r == Merged(target, other, defaults)
    decreases other
  {
    if target.Obj? && other.Obj? && defaults.Obj? {
      var t := target.members;
      var keys := other.members.Keys;
      while keys != {}
        invariant keys <= other.members.Keys
        invariant forall k :: Lookup(t, k) == if k in other.members && k !in keys
                                              then MergedMember(target.members, other, defaults.members, k)
                                              else Lookup(target.members, k)
        decreases keys
      {
        var key :| key in keys;
        var otherVal := other.members[key];
        var defaultVal := DefaultAt(defaults.members, key);
        assert Lookup(t, key) == Lookup(target.members, key);
        if key in t {
          var merged := MergeNonDefault(t[key], otherVal, defaultVal);
          t := t[key := merged];
        } else if otherVal != defaultVal {
          t := t[key := otherVal];
        }
        keys := keys - {key};
      }
      MergedMembers(target.members, other, defaults.members);
      SameLookups(t, Merged(target, other, defaults).members);
      r := Obj(t);
    } else if other != defaults {
      r := other;
    } else {
      r := target;
    }
  }

  lemma MergedMembers(t: map<string, Json>, o: Json, d: map<string, Json>)
    requires o.Obj?
    ensures forall k :: Lookup(Merged(Obj(t), o, Obj(d)).members, k) == MergedMember(t, o, d, k)
  {
  }

  // ---------------------------------------------------------------- units and idempotence

  /** Layering the defaults over any tree changes nothing. */
  lemma {:induction false} DefaultsOnTop(t: Json, d: Json)
    ensures Merged(t, d, d) == t
    decreases d
  {
    if t.Obj? && d.Obj? {
      forall k ensures MergedMember(t.members, d, d.members, k) == Lookup(t.members, k) {
        if k in d.members && k in t.members { DefaultsOnTop(t.members[k], d.members[k]); }
      }
      SameLookups(Merged(t, d, d).members, t.members);
    }
  }

  /** Where both are objects, `j` has every default key, and no null under any other key. */
  predicate Fills(d: Json, j: Json)
    decreases j
  {
    d.Obj? && j.Obj? ==>
      && d.members.Keys <= j.members.Keys
      && forall k | k in j.members :: if k in d.members then Fills(d.members[k], j.members[k]) else j.members[k] != Null
  }

  /** Layering a tree over the defaults gives that tree back exactly when it fills them. */
  lemma {:induction false} DefaultsBelow(o: Json, d: Json)
    ensures Merged(d, o, d) == o <==> Fills(d, o)
    decreases o
  {
    if d.Obj? && o.Obj? {
      MergedMembers(d.members, o, d.members);
      var r := Merged(d, o, d).members;
      forall k | k in o.members && k in d.members
        ensures MergedMember(d.members, o, d.members, k) == Some(o.members[k]) <==> Fills(d.members[k], o.members[k])
      {
        DefaultsBelow(o.members[k], d.members[k]);
      }
      if Fills(d, o) {
        SameLookups(r, o.members);
      } else if r == o.members {
        forall k ensures MergedMember(d.members, o, d.members, k) == Lookup(o.members, k) {
          assert Lookup(r, k) == MergedMember(d.members, o, d.members, k);
        }
        forall k | k in d.members ensures k in o.members {
          assert MergedMember(d.members, o, d.members, k) == Lookup(o.members, k);
        }
        forall k | k in o.members ensures if k in d.members then Fills(d.members[k], o.members[k])
            else o.members[k] != Null {
          assert MergedMember(d.members, o, d.members, k) == Lookup(o.members, k);
        }
      }
    }
  }

  lemma {:induction false} MergeIsIdempotent(t: Json, d: Json)
    ensures Merged(t, t, d) == t
    decreases t
  {
    if t.Obj? && d.Obj? {
      forall k ensures MergedMember(t.members, t, d.members, k) == Lookup(t.members, k) {
        if k in t.members { MergeIsIdempotent(t.members[k], DefaultAt(d.members, k)); }
      }
      SameLookups(Merged(t, t, d).members, t.members);
    }
  }

  // ---------------------------------------------------------------- associativity

  /** `j` has an object under each of its keys where the defaults have one. */
  predicate Shaped(d: Json, j: Json)
    decreases j
  {
    d.Obj? ==> j.Obj? && forall k | k in j.members && k in d.members :: Shaped(d.members[k], j.members[k])
  }

  /** Layering never restores a default that was overridden. */
  lemma {:induction false} MergedToDefault(b: Json, c: Json, d: Json)
    requires Merged(b, c, d) == d
    ensures b == d
    decreases c
  {
    if b.Obj? && c.Obj? && d.Obj? {
      MergedMembers(b.members, c, d.members);
      forall k ensures Lookup(b.members, k) == Lookup(d.members, k) {
        assert MergedMember(b.members, c, d.members, k) == Lookup(d.members, k);
        if k in b.members && k in c.members && k in d.members {
          MergedToDefault(b.members[k], c.members[k], d.members[k]);
        }
      }
      SameLookups(b.members, d.members);
    }
  }

  lemma {:induction false} MergeIsAssociative(a: Json, b: Json, c: Json, d: Json)
    requires Shaped(d, b) && Fills(d, c)
    ensures Merged(Merged(a, b, d), c, d) == Merged(a, Merged(b, c, d), d)
    decreases c
  {
    if b.Obj? && c.Obj? && d.Obj? {
      var bc := Merged(b, c, d);
      MergedMembers(b.members, c, d.members);
      if a.Obj? {
        MergedMembers(a.members, b, d.members);
        var ab := Merged(a, b, d);
        MergedMembers(ab.members, c, d.members);
        MergedMembers(a.members, bc, d.members);
        forall k ensures MergedMember(ab.members, c, d.members, k) == MergedMember(a.members, bc, d.members, k) {
          MemberIsAssociative(a.members, b, c, d, k);
        }
        SameLookups(Merged(ab, c, d).members, Merged(a, bc, d).members);
      } else if b == d {
        DefaultsBelow(c, d);
      } else if bc == d {
        MergedToDefault(b, c, d);
      }
    }
  }

  lemma {:induction false} MemberIsAssociative(a: map<string, Json>, b: Json, c: Json, d: Json, k: string)
    requires b.Obj? && c.Obj? && d.Obj? && Shaped(d, b) && Fills(d, c)
    ensures MergedMember(Merged(Obj(a), b, d).members, c, d.members, k) ==
        MergedMember(a, Merged(b, c, d), d.members, k)
    decreases c, 0
  {
    MergedMembers(b.members, c, d.members);
    MergedMembers(a, b, d.members);
    var dv := DefaultAt(d.members, k);
    if k in b.members && k in c.members {
      if k in a {
        MergeIsAssociative(a[k], b.members[k], c.members[k], dv);
      } else if b.members[k] == dv {
        DefaultsBelow(c.members[k], dv);
      } else if Merged(b.members[k], c.members[k], dv) == dv {
        MergedToDefault(b.members[k], c.members[k], dv);
      }
    } else if k in c.members && k in a && c.members[k] == dv {
      DefaultsOnTop(a[k], dv);
    }
  }

  // ---------------------------------------------------------------- the wizard's recovery

  /** Where the defaults have an object, so has `j`, with every default key and no null elsewhere. */
  predicate Complete(d: Json, j: Json)
    decreases j
  {
    d.Obj? ==>
      && j.Obj? && d.members.Keys <= j.members.Keys
      && forall k | k in j.members :: if k in d.members then Complete(d.members[k], j.members[k])
          else j.members[k] != Null
  }

  lemma {:induction false} CompleteIsShapedAndFills(d: Json, j: Json)
    ensures Complete(d, j) <==> Shaped(d, j) && Fills(d, j)
    decreases j
  {
    if d.Obj? && j.Obj? {
      forall k | k in j.members && k in d.members
        ensures Complete(d.members[k], j.members[k]) <==>
            Shaped(d.members[k], j.members[k]) && Fills(d.members[k], j.members[k])
      {
        CompleteIsShapedAndFills(d.members[k], j.members[k]);
      }
    }
  }

  /** Complete trees are closed under layering. */
  lemma {:induction false} MergedIsComplete(t: Json, o: Json, d: Json)
    requires Complete(d, t) && Complete(d, o)
    ensures Complete(d, Merged(t, o, d))
    decreases o
  {
    if d.Obj? {
      MergedMembers(t.members, o, d.members);
      var r := Merged(t, o, d);
      forall k | k in r.members
        ensures if k in d.members then Complete(d.members[k], r.members[k]) else r.members[k] != Null
      {
        assert Lookup(r.members, k) == MergedMember(t.members, o, d.members, k);
        if k in d.members { MergedIsComplete(t.members[k], o.members[k], d.members[k]); }
      }
      forall k | k in d.members ensures k in r.members {
        assert Lookup(r.members, k) == MergedMember(t.members, o, d.members, k);
      }
    }
  }

  /** Loading the stored settings over this run's first answers, and those answers on top again, is the
      same as laying the answers over the stored settings. */
  lemma {:induction false} WizardRecovery(step1: Json, db: Json, d: Json)
    requires Complete(d, step1) && Complete(d, db)
    ensures Merged(Merged(step1, db, d), step1, d) == Merged(db, step1, d)
    decreases step1
  {
    if d.Obj? {
      var both := Merged(step1, db, d);
      MergedMembers(step1.members, db, d.members);
      MergedMembers(both.members, step1, d.members);
      MergedMembers(db.members, step1, d.members);
      forall k ensures MergedMember(both.members, step1, d.members, k) ==
          MergedMember(db.members, step1, d.members, k) {
        assert Lookup(both.members, k) == MergedMember(step1.members, db, d.members, k);
        if k in step1.members {
          if k in db.members && k in d.members {
            WizardRecovery(step1.members[k], db.members[k], d.members[k]);
          } else if k !in db.members {
            MergeIsIdempotent(step1.members[k], DefaultAt(d.members, k));
          }
        }
      }
      SameLookups(Merged(both, step1, d).members, Merged(db, step1, d).members);
    }
  }

  /** A path at which the defaults stop being objects: a default leaf, or a key the defaults lack. */
  predicate Frontier(d: Json, p: Path)
    decreases |p|
  {
    if p == [] then !d.Obj?
    else d.Obj? && if p[0] in d.members then Frontier(d.members[p[0]], p[1..]) else |p| == 1
  }

  /** At each such path the upper layer's value wins if it has one that is not the default, and the lower
      layer's stays otherwise. */
  lemma {:induction false} MergedAt(t: Json, o: Json, d: Json, p: Path)
    requires Complete(d, t) && Complete(d, o) && Frontier(d, p)
    ensures At(Some(Merged(t, o, d)), p) ==
            if At(Some(o), p).Some? && At(Some(o), p) != At(Some(d), p) then At(Some(o), p) else At(Some(t), p)
    decreases |p|
  {
    if p != [] {
      MergedMembers(t.members, o, d.members);
      var k := p[0];
      assert Lookup(Merged(t, o, d).members, k) == MergedMember(t.members, o, d.members, k);
      if k in d.members { MergedAt(t.members[k], o.members[k], d.members[k], p[1..]); }
    }
  }

  /** The wizard's outcome, leaf by leaf. */
  lemma WizardOutcomeAt(step1: Json, db: Json, d: Json, p: Path)
    requires Complete(d, step1) && Complete(d, db) && Frontier(d, p)
    ensures At(Some(Merged(Merged(step1, db, d), step1, d)), p) ==
            if At(Some(step1), p).Some? && At(Some(step1), p) != At(Some(d), p) then At(Some(step1), p)
                else At(Some(db), p)
  {
    WizardRecovery(step1, db, d);
    MergedAt(db, step1, d, p);
  }

  // ---------------------------------------------------------------- through the settings type

  /** Members of a typed object may be replaced by members that fit. */
  lemma TypedFromMembers(s: Schema, t: Json, r: Json)
    requires WellFormed(s) && Typed(s, t) && t.Obj? && r.Obj? && t.members.Keys <= r.members.Keys
    requires forall k | k in r.members :: Slot(s, k).Some? && Fits(Slot(s, k).value, Some(r.members[k]))
    ensures Typed(s, r)
  {
    StripTyped(s, t);
    StripTyped(s, r);
  }

  /** Layering settings gives settings, so reading the merged tree back never fails or alters it. */
  lemma {:induction false} MergedIsTyped(s: Schema, t: Json, o: Json, d: Json)
    requires WellFormed(s) && Typed(s, t) && Typed(s, o)
    ensures Typed(s, Merged(t, o, d))
    decreases o
  {
    if t.Obj? && o.Obj? && d.Obj? {
      var r := Merged(t, o, d);
      MergedMembers(t.members, o, d.members);
      forall k | k in r.members ensures Slot(s, k).Some? && Fits(Slot(s, k).value, Some(r.members[k])) {
        assert Lookup(r.members, k) == MergedMember(t.members, o, d.members, k);
        if k in t.members { MemberFits(s, t, k); }
        if k in o.members { MemberFits(s, o, k); }
        if k in t.members && k in o.members {
          MergedIsTyped(Slot(s, k).value.schema, t.members[k], o.members[k], DefaultAt(d.members, k));
        }
      }
      forall k | k in t.members ensures k in r.members {
        assert Lookup(r.members, k) == MergedMember(t.members, o, d.members, k);
      }
      TypedFromMembers(s, t, r);
    }
  }

  // ---------------------------------------------------------------- settings are such trees

  /** Where the default is an object, the type is a record none of whose default members is ever left out, or a map
      that is empty by default and holds no nulls. */
  ghost predicate Steady(s: Schema, d: Json)
    decreases d
  {
    d.Obj? ==>
      match s
      case Record(fields) =>
        forall k | k in d.members :: k in fields && !fields[k].omitNull && Steady(fields[k].schema, d.members[k])
      case Dict(value) => d.members == map[] && !value.Optional?
      case _ => false
  }

  /** All values of such a type are complete over the default. */
  lemma {:induction false} TypedIsComplete(s: Schema, d: Json, j: Json)
    requires Typed(s, d) && Typed(s, j) && Steady(s, d)
    ensures Complete(d, j)
    decreases d
  {
    if d.Obj? {
      forall k | k in j.members && k in d.members ensures Complete(d.members[k], j.members[k]) {
        TypedIsComplete(s.fields[k].schema, d.members[k], j.members[k]);
      }
      forall k | k in j.members && k !in d.members ensures j.members[k] != Null {
        if s.Record? { assert s.fields[k].omitNull; }
      }
    }
  }
}
