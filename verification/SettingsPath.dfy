/** Dotted paths into a settings tree, and the effect of setting one of them. */
module SettingsPath {
  import opened Json
  import opened Schema

  type Path = seq<string>

  predicate Dotless(s: string) { '.' !in s }

  /** `str::split('.')`: always at least one part. */
  function SplitDots(s: string): (parts: Path)
    ensures parts != []
  {
    if s == "" then [""]
    else
      var rest := SplitDots(s[1..]);
      if s[0] == '.' then [""] + rest else [[s[0]] + rest[0]] + rest[1..]
  }

  function JoinDots(p: Path): string
    requires p != []
  {
    if |p| == 1 then p[0] else p[0] + "." + JoinDots(p[1..])
  }

  lemma {:induction false} SplitPrepend(a: string, s: string)
    requires Dotless(a)
    ensures SplitDots(a + s) == [a + SplitDots(s)[0]] + SplitDots(s)[1..]
  {
    if a == "" {
      assert a + s == s && a + SplitDots(s)[0] == SplitDots(s)[0];
    } else {
      assert (a + s)[1..] == a[1..] + s;
      SplitPrepend(a[1..], s);
      assert [a[0]] + (a[1..] + SplitDots(s)[0]) == a + SplitDots(s)[0];
    }
  }

  lemma {:induction false} SplitInvertsJoin(p: Path)
    requires p != [] && forall i | 0 <= i < |p| :: Dotless(p[i])
    ensures SplitDots(JoinDots(p)) == p
  {
    if |p| == 1 {
      SplitPrepend(p[0], "");
      assert p[0] + "" == p[0];
      assert p[0] + SplitDots("")[0] == p[0];
    } else {
      SplitInvertsJoin(p[1..]);
      var rest := "." + JoinDots(p[1..]);
      assert rest[1..] == JoinDots(p[1..]);
      assert p[0] + "." + JoinDots(p[1..]) == p[0] + rest;
      SplitPrepend(p[0], rest);
      assert p[0] + "" == p[0];
    }
  }

  lemma {:induction false} SplitIsDotless(s: string)
    ensures forall i | 0 <= i < |SplitDots(s)| :: Dotless(SplitDots(s)[i])
    ensures JoinDots(SplitDots(s)) == s
  {
    if s != "" {
      SplitIsDotless(s[1..]);
      var rest := SplitDots(s[1..]);
      if s[0] == '.' {
        assert SplitDots(s)[1..] == rest;
      } else {
        assert SplitDots(s)[1..] == rest[1..];
      }
    }
  }

  // ---------------------------------------------------------------- Settings::set

  datatype SetError =
    | PathNotFound
    | ParentNotObject
    | ExpectedBoolean
    | ExpectedInteger
    | ExpectedNumber
    | InvalidArray
    | InvalidObject
    | NotApplicable

  datatype Result<+T> = Success(value: T) | Failure(error: SetError)

  /** The value a text stands for where `existing` is found: the type is inferred from what is there. */
  function Infer(c: Codec, existing: Option<Json>, text: string): Result<Json> {
    match existing
    case None => Success(ParseOrString(c, text))
    case Some(Null) => Success(ParseOrString(c, text))
    case Some(Bool(_)) =>
      (match ParseBool(text)
       case Some(b) => Success(Bool(b))
       case None => Failure(ExpectedBoolean))
    case Some(Num(n)) =>
      if n >= 0 then
        (match ParseU64(text)
         case Some(v) => Success(Num(v))
         case None => Failure(ExpectedInteger))
      else
        (match ParseI64(text)
         case Some(v) => Success(Num(v))
         case None => Failure(ExpectedInteger))
    case Some(Float(_)) =>
      (match c.parseFloat(text)
       case Some(Finite(r)) => Success(Float(r))
       case Some(NonFinite) => Success(Str(text))
       case None => Failure(ExpectedNumber))
    case Some(Arr(_)) => ParseOr(c, text, InvalidArray)
    case Some(Obj(_)) => ParseOr(c, text, InvalidObject)
    case Some(Str(_)) => Success(Str(text))
  }

  function ParseOrString(c: Codec, text: string): Json {
    match c.parse(text)
    case Some(j) => j
    case None => Str(text)
  }

  function ParseOr(c: Codec, text: string, error: SetError): Result<Json> {
    match c.parse(text)
    case Some(j) => Success(j)
    case None => Failure(error)
  }

  /** The tree with the text written at the path, before it is read back into the settings type. */
  function Insert(c: Codec, tree: Json, path: Path, text: string): Result<Json>
    requires path != []
  {
    if |path| == 1 then
      if !tree.Obj? then Failure(ParentNotObject)
      else match Infer(c, Lookup(tree.members, path[0]), text)
        case Success(v) => Success(Obj(tree.members[path[0] := v]))
        case Failure(e) => Failure(e)
    else if !tree.Obj? || path[0] !in tree.members then Failure(PathNotFound)
    else match Insert(c, tree.members[path[0]], path[1..], text)
      case Success(v) => Success(Obj(tree.members[path[0] := v]))
      case Failure(e) => Failure(e)
  }

  /** The whole of a `set`: insert, then read the tree back as the settings type. */
  function SetPath(c: Codec, s: Schema, tree: Json, path: Path, text: string): Result<Json>
    requires path != []
  {
    match Insert(c, tree, path, text)
    case Failure(e) => Failure(e)
    case Success(j) => match Decode(s, j)
      case None => Failure(NotApplicable)
      case Some(v) => Success(v)
  }

  function OrElse(r: Result<Json>, fallback: Json): Json {
    if r.Success? then r.value else fallback
  }

  // ---------------------------------------------------------------- the same effect, place by place

  /** What a place holding `e` holds after `text` is set there. */
  function PutLeaf(c: Codec, f: Field, e: Option<Json>, text: string): Option<Json> {
    match Infer(c, e, text)
    case Failure(_) => e
    case Success(j) => match Decode(f.schema, j)
      case None => e
      case Some(v) => if Omits(f, v) then None else Some(v)
  }

  /** What a place holding `e` holds after `text` is set at `path` below it. Nothing outside the path is
      looked at. */
  function Put(c: Codec, f: Field, e: Option<Json>, path: Path, text: string): Option<Json>
    decreases |path|
  {
    if path == [] then PutLeaf(c, f, e, text)
    else if e.None? || !e.value.Obj? || Slot(f.schema, path[0]).None? then e
    else
      var m := e.value.members;
      Some(Obj(Store(m, path[0], Put(c, Slot(f.schema, path[0]).value, Lookup(m, path[0]), path[1..], text))))
  }

  function Root(s: Schema): Field { Field(s, None, false) }

  /** What re-reading member `k` as `x` makes of the object `m`. */
  function Reread(f: Field, m: map<string, Json>, k: string, x: Json): Option<Json> {
    match Decode(f.schema, x)
    case None => None
    case Some(v) => Some(Obj(Store(m, k, if Omits(f, v) then None else Some(v))))
  }

  lemma ReplacedInDict(value: Schema, m: map<string, Json>, k: string, x: Json)
    requires WellFormed(value) && Typed(Dict(value), Obj(m))
    ensures Decode(Dict(value), Obj(m[k := x])) == Reread(Field(value, None, false), m, k, x)
  {
    var n := m[k := x];
    forall i | i in n && i != k ensures Decode(value, n[i]) == Some(n[i]) { TypedDecodes(value, m[i]); }
    assert n[k] == x;
    if Decode(value, x).Some? {
      var v := Decode(value, x).value;
      var r := Decode(Dict(value), Obj(n));
      assert r.Some? && r.value.members.Keys == n.Keys;
      assert r.value.members == m[k := v];
    }
  }

  lemma MembersReread(fields: map<string, Field>, m: map<string, Json>, k: string, x: Json, i: string)
    requires WellFormed(Record(fields)) && Typed(Record(fields), Obj(m)) && i in fields
    ensures DecodeMember(fields[i], Obj(m[k := x]), i) ==
            if i == k then Decode(fields[k].schema, x) else if i in m then Some(m[i]) else Some(Null)
  {
    if i != k && i in m { TypedDecodes(fields[i].schema, m[i]); }
  }

  /** A record is read member by member. */
  lemma RecordRead(fields: map<string, Field>, j: Json, r: map<string, Json>)
    requires j.Obj? && forall i | i in fields :: DecodeMember(fields[i], j, i).Some?
    requires forall i ::
      (i in r <==> i in fields && !Omits(fields[i], DecodeMember(fields[i], j, i).value))
      && (i in r ==> r[i] == DecodeMember(fields[i], j, i).value)
    ensures Decode(Record(fields), j) == Some(Obj(r))
  {
    assert Decode(Record(fields), j).value.members == r;
  }

  lemma ReplacedUnknown(fields: map<string, Field>, m: map<string, Json>, k: string, x: Json)
    requires WellFormed(Record(fields)) && Typed(Record(fields), Obj(m)) && k !in fields
    ensures Decode(Record(fields), Obj(m[k := x])) == Some(Obj(m))
  {
    forall i | i in fields ensures DecodeMember(fields[i], Obj(m[k := x]), i) == if i in m then Some(m[i])
        else Some(Null) {
      MembersReread(fields, m, k, x, i);
    }
    RecordRead(fields, Obj(m[k := x]), m);
  }

  lemma ReplacedKnown(fields: map<string, Field>, m: map<string, Json>, k: string, x: Json)
    requires WellFormed(Record(fields)) && Typed(Record(fields), Obj(m)) && k in fields
        && Decode(fields[k].schema, x).Some?
    ensures Decode(Record(fields), Obj(m[k := x])) == Reread(fields[k], m, k, x)
  {
    forall i | i in fields
      ensures DecodeMember(fields[i], Obj(m[k := x]), i) ==
              if i == k then Decode(fields[k].schema, x) else if i in m then Some(m[i]) else Some(Null)
    {
      MembersReread(fields, m, k, x, i);
    }
    RecordRead(fields, Obj(m[k := x]), Reread(fields[k], m, k, x).value.members);
  }

  lemma ReplacedInRecord(fields: map<string, Field>, m: map<string, Json>, k: string, x: Json)
    requires WellFormed(Record(fields)) && Typed(Record(fields), Obj(m))
    ensures Decode(Record(fields), Obj(m[k := x])) == if k in fields then Reread(fields[k], m, k, x) else Some(Obj(m))
  {
    if k !in fields {
      ReplacedUnknown(fields, m, k, x);
    } else if Decode(fields[k].schema, x).None? {
      MembersReread(fields, m, k, x, k);
    } else {
      ReplacedKnown(fields, m, k, x);
    }
  }

  /** Reading back a typed object in which one member was replaced re-reads that member only. */
  lemma DecodeReplaced(s: Schema, m: map<string, Json>, k: string, x: Json)
    requires WellFormed(s) && Typed(s, Obj(m))
    ensures Decode(s, Obj(m[k := x])) == if Slot(s, k).Some? then Reread(Slot(s, k).value, m, k, x) else Some(Obj(m))
  {
    StripTyped(s, Obj(m));
    StripTyped(s, Obj(m[k := x]));
    match Strip(s)
    case Dict(value) => ReplacedInDict(value, m, k, x);
    case Record(fields) => ReplacedInRecord(fields, m, k, x);
    case _ =>
  }

  /** Frame of `set`: inserting, reading the whole tree back and keeping the old tree on an error is the
      same as changing the one place that the path names. */
  lemma {:induction false} SetIsPut(c: Codec, f: Field, tree: Json, path: Path, text: string)
    requires WellFormed(f.schema) && Typed(f.schema, tree) && path != []
    ensures Put(c, f, Some(tree), path, text) == Some(OrElse(SetPath(c, f.schema, tree, path, text), tree))
    decreases |path|
  {
    if !tree.Obj? { return; }
    var s, m, k := f.schema, tree.members, path[0];
    assert Store(m, k, Lookup(m, k)) == m;
    if k in m {
      MemberFits(s, tree, k);
      if |path| > 1 { SetIsPut(c, Slot(s, k).value, m[k], path[1..], text); }
    }
    if Insert(c, tree, path, text).Success? {
      DecodeReplaced(s, m, k, Insert(c, tree, path, text).value.members[k]);
    }
  }

  /** `set` keeps the tree a value of the settings type. */
  lemma SetKeepsType(c: Codec, s: Schema, tree: Json, path: Path, text: string)
    requires WellFormed(s) && Typed(s, tree) && path != []
    ensures Typed(s, OrElse(SetPath(c, s, tree, path, text), tree))
  {
    if SetPath(c, s, tree, path, text).Success? {
      DecodeIsTyped(s, Insert(c, tree, path, text).value);
    }
  }

  // ---------------------------------------------------------------- diverging paths

  ghost predicate Diverge(p: Path, q: Path) { !(p <= q) && !(q <= p) }

  lemma DivergeTail(p: Path, q: Path)
    requires Diverge(p, q)
    ensures p != [] && q != [] && (p[0] == q[0] ==> Diverge(p[1..], q[1..]))
  {
    if p[0] == q[0] {
      assert p == [p[0]] + p[1..] && q == [q[0]] + q[1..];
    }
  }

  /** The value at a path, if the path exists. */
  function At(e: Option<Json>, p: Path): Option<Json>
    decreases |p|
  {
    if p == [] then e
    else if e.Some? && e.value.Obj? then At(Lookup(e.value.members, p[0]), p[1..])
    else None
  }

  /** Setting one path leaves the value at every diverging path as it was. */
  lemma {:induction false} PutFrame(c: Codec, f: Field, e: Option<Json>, p: Path, text: string, q: Path)
    requires Diverge(p, q)
    ensures At(Put(c, f, e, p, text), q) == At(e, q)
    decreases |p|
  {
    DivergeTail(p, q);
    if e.Some? && e.value.Obj? && Slot(f.schema, p[0]).Some? && p[0] == q[0] {
      PutFrame(c, Slot(f.schema, p[0]).value, Lookup(e.value.members, p[0]), p[1..], text, q[1..]);
    }
  }

  /** Setting two diverging paths, whatever each attempt comes to, has one effect in either order. */
  lemma {:induction false} PutCommutes(c: Codec, f: Field, e: Option<Json>, p: Path, x: string, q: Path, y: string)
    requires Diverge(p, q)
    ensures Put(c, f, Put(c, f, e, p, x), q, y) == Put(c, f, Put(c, f, e, q, y), p, x)
    decreases |p|
  {
    DivergeTail(p, q);
    if e.Some? && e.value.Obj? && Slot(f.schema, p[0]).Some? && Slot(f.schema, q[0]).Some? {
      var m := e.value.members;
      if p[0] == q[0] {
        PutCommutes(c, Slot(f.schema, p[0]).value, Lookup(m, p[0]), p[1..], x, q[1..], y);
        StoreTwice(m, p[0], Put(c, Slot(f.schema, p[0]).value, Lookup(m, p[0]), p[1..], x));
        StoreTwice(m, q[0], Put(c, Slot(f.schema, q[0]).value, Lookup(m, q[0]), q[1..], y));
      } else {
        StoreApart(m, p[0], Put(c, Slot(f.schema, p[0]).value, Lookup(m, p[0]), p[1..], x),
                   q[0], Put(c, Slot(f.schema, q[0]).value, Lookup(m, q[0]), q[1..], y));
      }
    }
  }

  lemma StoreTwice(m: map<string, Json>, k: string, a: Option<Json>)
    ensures Lookup(Store(m, k, a), k) == a
    ensures forall b :: Store(Store(m, k, a), k, b) == Store(m, k, b)
  {
    forall b ensures Store(Store(m, k, a), k, b) == Store(m, k, b) {
      assert Store(Store(m, k, a), k, b) == Store(m, k, b);
    }
  }

  lemma StoreApart(m: map<string, Json>, k: string, a: Option<Json>, i: string, b: Option<Json>)
    requires k != i
    ensures Lookup(Store(m, k, a), i) == Lookup(m, i) && Lookup(Store(m, i, b), k) == Lookup(m, k)
    ensures Store(Store(m, k, a), i, b) == Store(Store(m, i, b), k, a)
  {
  }
}
