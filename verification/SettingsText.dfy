/** What setting a text comes to, told in the characters of the text and by what the path holds. */
module SettingsText {
  import opened Json
  import opened Schema
  import opened SettingsPath
  import opened SettingsDb

  // ---------------------------------------------------------------- numerals

  predicate IsNumeral(s: string) { s != "" && AllDigits(s) }

  predicate AllDigits(s: string) { forall i | 0 <= i < |s| :: '0' <= s[i] <= '9' }

  function Power10(n: nat): nat { if n == 0 then 1 else 10 * Power10(n - 1) }

  /** The sum of the digits, each times its power of ten. */
  function Worth(s: string): nat
    requires AllDigits(s)
  {
    if s == "" then 0 else (s[0] - '0') as nat * Power10(|s| - 1) + Worth(s[1..])
  }

  /** The integer that a text with an optional sign spells. */
  function Signed(s: string, minus: bool): Option<int> {
    if IsNumeral(s) then Some(Worth(s))
    else if s != "" && s[0] == '+' && IsNumeral(s[1..]) then Some(Worth(s[1..]))
    else if minus && s != "" && s[0] == '-' && IsNumeral(s[1..]) then Some(0 - Worth(s[1..]))
    else None
  }

  lemma TenTimes(d: nat, p: nat, w: nat, e: nat)
    ensures d * (10 * p) + (10 * w + e) == 10 * (d * p + w) + e
  {
    assert d * (10 * p) == 10 * (d * p);
  }

  lemma {:induction false} WorthSnoc(s: string, c: char)
    requires AllDigits(s) && '0' <= c <= '9'
    ensures AllDigits(s + [c]) && Worth(s + [c]) == 10 * Worth(s) + (c - '0') as nat
  {
    if s == "" {
      assert s + [c] == [c] && [c][1..] == "";
    } else {
      WorthSnoc(s[1..], c);
      assert (s + [c])[1..] == s[1..] + [c];
      TenTimes((s[0] - '0') as nat, Power10(|s| - 1), Worth(s[1..]), (c - '0') as nat);
    }
  }

  /** Reading digits from the right is the positional value. */
  lemma {:induction false} DigitsAreWorth(s: string)
    ensures ParseDigits(s) == if IsNumeral(s) then Some(Worth(s)) else None
  {
    if s == "" { return; }
    var n := |s| - 1;
    var front, c := s[..n], s[n];
    assert s == front + [c];
    if AllDigits(front) && '0' <= c <= '9' { WorthSnoc(front, c); }
    if n > 0 { DigitsAreWorth(front); }
    assert AllDigits(s) <==> AllDigits(front) && '0' <= c <= '9';
  }

  lemma IntegersAreSigned(s: string)
    ensures var v := Signed(s, false); ParseU64(s) == if v.Some? && v.value <= MAX_U64 then v else None
    ensures var v := Signed(s, true); ParseI64(s) == if v.Some? && MIN_I64 <= v.value <= MAX_I64 then v else None
  {
    DigitsAreWorth(s);
    if s != "" {
      DigitsAreWorth(s[1..]);
      if s[0] == '+' || s[0] == '-' { assert !AllDigits(s); }
    }
  }

  // ---------------------------------------------------------------- what a text stands for

  /** What a text stands for over what is there; `None` when it stands for nothing. */
  function Stands(c: Codec, e: Option<Json>, text: string): Option<Json> {
    if e.None? || e.value.Null? then Some(if c.parse(text).Some? then c.parse(text).value else Str(text))
    else
      match e.value
      case Bool(_) => if text in {"true", "false"} then Some(Bool(text == "true")) else None
      case Num(n) =>
        var v := Signed(text, n < 0);
        if v.Some? && (if n < 0 then MIN_I64 <= v.value <= MAX_I64 else v.value <= MAX_U64) then Some(Num(v.value))
        else None
      case Float(_) =>
        var v := c.parseFloat(text);
        if v.None? then None else Some(if v.value.Finite? then Float(v.value.r) else Str(text))
      case Str(_) => Some(Str(text))
      case _ => c.parse(text)
  }

  /** The error for a text that stands for nothing. */
  function Complaint(e: Option<Json>): SetError {
    if e.None? then NotApplicable
    else
      match e.value
      case Bool(_) => ExpectedBoolean
      case Num(_) => ExpectedInteger
      case Float(_) => ExpectedNumber
      case Arr(_) => InvalidArray
      case Obj(_) => InvalidObject
      case _ => NotApplicable
  }

  lemma InferStands(c: Codec, e: Option<Json>, text: string)
    ensures Infer(c, e, text) ==
            if Stands(c, e, text).Some? then Success(Stands(c, e, text).value) else Failure(Complaint(e))
  {
    IntegersAreSigned(text);
  }

  // ---------------------------------------------------------------- what setting it comes to

  /** The value is read at the place that the path names: nothing happens when the type knows no such place, and what is
      read is there afterwards, with everything beside the path as it was. */
  ghost predicate Results(s: Schema, tree: Json, p: Path, v: Json, r: Result<Json>) {
    match Place(Root(s), Some(tree), p)
    case None => r == Success(tree)
    case Some((f, _)) =>
      match Decode(f.schema, v)
      case None => r == Failure(NotApplicable)
      case Some(w) =>
        && r.Success? && At(Some(r.value), p) == (if Omits(f, w) then None else Some(w))
        && forall q | Diverge(p, q) :: At(Some(r.value), q) == At(Some(tree), q)
  }

  /** The outcome of setting the text. */
  ghost predicate Outcome(c: Codec, s: Schema, tree: Json, p: Path, text: string, r: Result<Json>)
    requires p != []
  {
    var parent := At(Some(tree), p[..|p| - 1]);
    if parent.None? then r == Failure(PathNotFound)
    else if !parent.value.Obj? then r == Failure(ParentNotObject)
    else
      var e := Lookup(parent.value.members, p[|p| - 1]);
      match Stands(c, e, text)
      case None => r == Failure(Complaint(e))
      case Some(v) => Results(s, tree, p, v, r)
  }

  lemma ParentBelow(tree: Json, p: Path)
    requires |p| > 1
    ensures p[..|p| - 1][0] == p[0] && p[..|p| - 1][1..] == p[1..][..|p| - 2] && p[1..][|p| - 2] == p[|p| - 1]
    ensures At(Some(tree), p[..|p| - 1]) ==
            if tree.Obj? then At(Lookup(tree.members, p[0]), p[1..][..|p| - 2]) else None
  {
  }

  /** Navigating and inferring: the error, or what is written at the path. */
  lemma {:induction false} InsertMeans(c: Codec, tree: Json, p: Path, text: string)
    requires p != []
    ensures var parent, r := At(Some(tree), p[..|p| - 1]), Insert(c, tree, p, text);
            if parent.None? then r == Failure(PathNotFound)
            else if !parent.value.Obj? then r == Failure(ParentNotObject)
            else
              var e := Lookup(parent.value.members, p[|p| - 1]);
              match Stands(c, e, text)
              case None => r == Failure(Complaint(e))
              case Some(v) => r.Success?
    decreases |p|
  {
    if |p| == 1 {
      if tree.Obj? { InferStands(c, Lookup(tree.members, p[0]), text); }
    } else {
      ParentBelow(tree, p);
      if tree.Obj? && p[0] in tree.members { InsertMeans(c, tree.members[p[0]], p[1..], text); }
    }
  }

  /** What setting leaves at the path. */
  lemma {:induction false} PutMeans(c: Codec, f: Field, e: Option<Json>, p: Path, text: string)
    ensures match Place(f, e, p)
            case None => Put(c, f, e, p, text) == e
            case Some((g, h)) => At(Put(c, f, e, p, text), p) == PutLeaf(c, g, h, text) && h == At(e, p)
    decreases |p|
  {
    if p != [] && e.Some? && e.value.Obj? && Slot(f.schema, p[0]).Some? {
      var m, k, g := e.value.members, p[0], Slot(f.schema, p[0]).value;
      PutMeans(c, g, Lookup(m, k), p[1..], text);
      StoreTwice(m, k, Put(c, g, Lookup(m, k), p[1..], text));
      assert Store(m, k, Lookup(m, k)) == m;
    }
  }

  /** Reading the whole tree back fails exactly when reading at the place fails. */
  lemma {:induction false} RereadFails(c: Codec, f: Field, tree: Json, p: Path, text: string)
    requires WellFormed(f.schema) && Typed(f.schema, tree) && p != [] && Insert(c, tree, p, text).Success?
    ensures Decode(f.schema, Insert(c, tree, p, text).value).None? <==>
            match Place(f, Some(tree), p)
            case None => false
            case Some((g, h)) => Infer(c, h, text).Success? && Decode(g.schema, Infer(c, h, text).value).None?
    decreases |p|
  {
    var m, k := tree.members, p[0];
    DecodeReplaced(f.schema, m, k, Insert(c, tree, p, text).value.members[k]);
    if |p| == 1 {
      assert p[1..] == [];
    } else {
      MemberFits(f.schema, tree, k);
      RereadFails(c, Slot(f.schema, k).value, m[k], p[1..], text);
    }
  }

  lemma {:induction false} ParentHolds(tree: Json, p: Path)
    requires p != [] && At(Some(tree), p[..|p| - 1]).Some? && At(Some(tree), p[..|p| - 1]).value.Obj?
    ensures At(Some(tree), p) == Lookup(At(Some(tree), p[..|p| - 1]).value.members, p[|p| - 1])
    decreases |p|
  {
    if |p| == 1 {
      assert p[1..] == [];
    } else {
      ParentBelow(tree, p);
      ParentHolds(tree.members[p[0]], p[1..]);
    }
  }

  /** The whole of a `set`, for every tree, path and text: it fails without a parent object or on a text that stands for
      nothing there; and else what the text stands for is read at the place, and nothing beside it changes. */
  lemma SetMeans(c: Codec, s: Schema, tree: Json, p: Path, text: string)
    requires WellFormed(s) && Typed(s, tree) && p != []
    ensures Outcome(c, s, tree, p, text, SetPath(c, s, tree, p, text))
  {
    var r, parent := SetPath(c, s, tree, p, text), At(Some(tree), p[..|p| - 1]);
    InsertMeans(c, tree, p, text);
    if Insert(c, tree, p, text).Success? {
      var e := Lookup(parent.value.members, p[|p| - 1]);
      ParentHolds(tree, p);
      InferStands(c, e, text);
      SetIsPut(c, Root(s), tree, p, text);
      PutMeans(c, Root(s), Some(tree), p, text);
      RereadFails(c, Root(s), tree, p, text);
      forall q | Diverge(p, q) ensures At(Some(OrElse(r, tree)), q) == At(Some(tree), q) {
        PutFrame(c, Root(s), Some(tree), p, text, q);
      }
    }
  }

  // ---------------------------------------------------------------- kind by kind

  /** A place of the tree, with its type less optionality, and what it holds. */
  ghost predicate Holds(s: Schema, tree: Json, p: Path, kind: Schema, e: Json) {
    && WellFormed(s) && Typed(s, tree) && p != []
    && Place(Root(s), Some(tree), p).Some?
    && Strip(Place(Root(s), Some(tree), p).value.0.schema) == kind
    && At(Some(tree), p) == Some(e)
  }

  lemma {:induction false} PlaceFits(f: Field, e: Option<Json>, p: Path)
    requires WellFormed(f.schema) && Fits(f, e) && At(e, p).Some?
    ensures Place(f, e, p).Some? && Place(f, e, p).value.1 == At(e, p)
    ensures WellFormed(Place(f, e, p).value.0.schema) && Fits(Place(f, e, p).value.0, At(e, p))
    decreases |p|
  {
    if p != [] {
      MemberFits(f.schema, e.value, p[0]);
      PlaceFits(Slot(f.schema, p[0]).value, Lookup(e.value.members, p[0]), p[1..]);
    }
  }

  lemma {:induction false} ParentOf(tree: Json, p: Path)
    requires p != [] && At(Some(tree), p).Some?
    ensures At(Some(tree), p[..|p| - 1]).Some? && At(Some(tree), p[..|p| - 1]).value.Obj?
    decreases |p|
  {
    if |p| == 1 {
      assert p[..0] == [];
    } else {
      ParentBelow(tree, p);
      ParentOf(tree.members[p[0]], p[1..]);
    }
  }

  /** Over what is there: the text is refused, or read at the place's type. */
  lemma OverValue(c: Codec, s: Schema, tree: Json, p: Path, text: string, kind: Schema, e: Json)
    requires Holds(s, tree, p, kind, e)
    ensures var r := SetPath(c, s, tree, p, text);
            match Stands(c, Some(e), text)
            case None => r == Failure(Complaint(Some(e)))
            case Some(v) =>
              v != Null ==>
                match Decode(kind, v)
                case None => r == Failure(NotApplicable)
                case Some(w) => w != Null ==> r.Success? && At(Some(r.value), p) == Some(w)
  {
    SetMeans(c, s, tree, p, text);
    ParentOf(tree, p);
    ParentHolds(tree, p);
    PlaceFits(Root(s), Some(tree), p);
    var v := Stands(c, Some(e), text);
    if v.Some? && v.value != Null { StripTyped(Place(Root(s), Some(tree), p).value.0.schema, v.value); }
  }

  lemma KindOf(s: Schema, tree: Json, p: Path, kind: Schema, e: Json)
    requires Holds(s, tree, p, kind, e) && e != Null
    ensures Typed(kind, e)
  {
    PlaceFits(Root(s), Some(tree), p);
    StripTyped(Place(Root(s), Some(tree), p).value.0.schema, e);
  }

  /** Over a boolean, exactly two texts are taken. */
  lemma OverBoolean(c: Codec, s: Schema, tree: Json, p: Path, text: string, kind: Schema, b: bool)
    requires Holds(s, tree, p, kind, Bool(b))
    ensures var r := SetPath(c, s, tree, p, text);
            if text == "true" || text == "false" then r.Success? && At(Some(r.value), p) == Some(Bool(text == "true"))
            else r == Failure(ExpectedBoolean)
  {
    KindOf(s, tree, p, kind, Bool(b));
    OverValue(c, s, tree, p, text, kind, Bool(b));
  }

  /** Over an integer, exactly an optional sign and digits, in range of the parser and of the field; a minus only over a
      negative one. */
  lemma OverInteger(c: Codec, s: Schema, tree: Json, p: Path, text: string, lo: int, hi: int, n: Whole)
    requires Holds(s, tree, p, Integer(lo, hi), Num(n))
    ensures var r, v := SetPath(c, s, tree, p, text), Signed(text, n < 0);
            if v.None? || v.value > (if n < 0 then MAX_I64 else MAX_U64) || v.value < MIN_I64
                then r == Failure(ExpectedInteger)
            else if !(lo <= v.value <= hi) then r == Failure(NotApplicable)
            else r.Success? && At(Some(r.value), p) == Some(Num(v.value))
  {
    OverValue(c, s, tree, p, text, Integer(lo, hi), Num(n));
  }

  /** Over a float, exactly the finite ones. */
  lemma OverFloat(c: Codec, s: Schema, tree: Json, p: Path, text: string, kind: Schema, x: Double)
    requires Holds(s, tree, p, kind, Float(x))
    ensures var r, v := SetPath(c, s, tree, p, text), c.parseFloat(text);
            if v.None? then r == Failure(ExpectedNumber)
            else if v.value.NonFinite? then r == Failure(NotApplicable)
            else r.Success? && At(Some(r.value), p) == Some(Float(v.value.r))
  {
    KindOf(s, tree, p, kind, Float(x));
    OverValue(c, s, tree, p, text, kind, Float(x));
  }

  /** Over a string any text is taken as it is, and over a choice exactly the names. */
  lemma OverText(c: Codec, s: Schema, tree: Json, p: Path, text: string, kind: Schema, x: string)
    requires Holds(s, tree, p, kind, Str(x))
    ensures var r := SetPath(c, s, tree, p, text);
            if kind.Choice? && text !in kind.names then r == Failure(NotApplicable)
            else r.Success? && At(Some(r.value), p) == Some(Str(text))
  {
    KindOf(s, tree, p, kind, Str(x));
    OverValue(c, s, tree, p, text, kind, Str(x));
  }

  /** Over an array or an object, exactly the JSON texts that the field's type reads, even of another kind. */
  lemma OverWhole(c: Codec, s: Schema, tree: Json, p: Path, text: string, kind: Schema, e: Json)
    requires Holds(s, tree, p, kind, e) && (e.Arr? || e.Obj?)
    ensures var r, v := SetPath(c, s, tree, p, text), c.parse(text);
            if v.None? then r == Failure(if e.Arr? then InvalidArray else InvalidObject)
            else var w := Decode(Place(Root(s), Some(tree), p).value.0.schema, v.value);
              if w.None? then r == Failure(NotApplicable)
              else r.Success? && (w.value != Null ==> At(Some(r.value), p) == w)
  {
    SetMeans(c, s, tree, p, text);
    ParentOf(tree, p);
    ParentHolds(tree, p);
  }

  /** Over a null, or under a new key that the type knows, the text is read as JSON, and as a string when it is none. */
  lemma OverNothing(c: Codec, s: Schema, tree: Json, p: Path, text: string, f: Field, e: Option<Json>)
    requires WellFormed(s) && Typed(s, tree) && p != [] && Place(Root(s), Some(tree), p) == Some((f, e))
    requires e.None? || e == Some(Null)
    requires At(Some(tree), p[..|p| - 1]).Some? && At(Some(tree), p[..|p| - 1]).value.Obj?
    ensures var r := SetPath(c, s, tree, p, text);
            var w := Decode(f.schema, if c.parse(text).Some? then c.parse(text).value else Str(text));
            if w.None? then r == Failure(NotApplicable)
            else r.Success? && At(Some(r.value), p) == if f.omitNull && w.value == Null then None else w
  {
    SetMeans(c, s, tree, p, text);
    ParentHolds(tree, p);
    PutMeans(c, Root(s), Some(tree), p, text);
  }

  /** Without a parent object nothing is taken, and the two errors tell a missing parent from one that is no object. */
  lemma NeedsParent(c: Codec, s: Schema, tree: Json, p: Path, text: string)
    requires WellFormed(s) && Typed(s, tree) && p != []
    ensures var r, parent := SetPath(c, s, tree, p, text), At(Some(tree), p[..|p| - 1]);
            && (r == Failure(PathNotFound) <==> parent.None?)
            && (r == Failure(ParentNotObject) <==> parent.Some? && !parent.value.Obj?)
  {
    SetMeans(c, s, tree, p, text);
  }
}
