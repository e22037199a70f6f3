/** What the serde derive of the settings structs accepts, and what it writes back. */
module Schema {
  import opened Json

  /** The type of a settings field. */
  datatype Schema =
    | Boolean
    | Integer(lo: int, hi: int)
    | Floating
    | Text
    | Choice(names: set<string>)
    | Optional(inner: Schema)
    | List(item: Schema)
    | Dict(value: Schema)
    | Record(fields: map<string, Field>)

  /** A place that holds a value: its type, the value a missing key stands for (`None` when the key is
      required), and whether a null is left out when writing. */
  datatype Field = Field(schema: Schema, missing: Option<Json>, omitNull: bool)

  predicate Omits(f: Field, j: Json) { f.omitNull && j == Null }

  /** Reading `j` as the type `s` and writing the result back; `None` when reading fails.
      Unknown members of a record are dropped. */
  function Decode(s: Schema, j: Json): Option<Json>
    decreases j, s
  {
    match s
    case Boolean => if j.Bool? then Some(j) else None
    case Integer(lo, hi) => if j.Num? && lo <= j.n <= hi then Some(j) else None
    case Floating =>
      if j.Float? then Some(j)
      else if j.Num? then Some(Float(Ratio(j.n, 1)))
      else None
    case Text => if j.Str? then Some(j) else None
    case Choice(names) => if j.Str? && j.s in names then Some(j) else None
    case Optional(inner) => if j.Null? then Some(Null) else Decode(inner, j)
    case List(item) =>
      if j.Arr? && forall i | 0 <= i < |j.items| :: Decode(item, j.items[i]).Some?
      then Some(Arr(seq(|j.items|, i requires 0 <= i < |j.items|
          && Decode(item, j.items[i]).Some? => Decode(item, j.items[i]).value)))
      else None
    case Dict(value) =>
      if j.Obj? && forall k | k in j.members :: Decode(value, j.members[k]).Some?
      then Some(Obj(map k | k in j.members :: Decode(value, j.members[k]).value))
      else None
    case Record(fields) =>
      if j.Obj? && forall k | k in fields :: DecodeMember(fields[k], j, k).Some?
      then Some(Obj(map k | k in fields && !Omits(fields[k], DecodeMember(fields[k], j, k).value)
                      :: DecodeMember(fields[k], j, k).value))
      else None
  }

  function DecodeMember(f: Field, j: Json, k: string): Option<Json>
    requires j.Obj?
    decreases j, f.schema, 0
  {
    if k in j.members then Decode(f.schema, j.members[k]) else f.missing
  }

  /** The trees that values of the type serialise to. */
  ghost predicate Typed(s: Schema, j: Json)
    decreases j, s
  {
    match s
    case Boolean => j.Bool?
    case Integer(lo, hi) => j.Num? && lo <= j.n <= hi
    case Floating => j.Float?
    case Text => j.Str?
    case Choice(names) => j.Str? && j.s in names
    case Optional(inner) => j.Null? || Typed(inner, j)
    case List(item) => j.Arr? && forall i | 0 <= i < |j.items| :: Typed(item, j.items[i])
    case Dict(value) => j.Obj? && forall k | k in j.members :: Typed(value, j.members[k])
    case Record(fields) =>
      && j.Obj?
      && j.members.Keys <= fields.Keys
      && (forall k | k in fields :: k in j.members || fields[k].omitNull)
      && (forall k | k in j.members :: Typed(fields[k].schema, j.members[k]) && !Omits(fields[k], j.members[k]))
  }

  /** Defaults are of their field's type, and a field that leaves nulls out reads a missing key as null. */
  ghost predicate WellFormed(s: Schema) {
    match s
    case Optional(inner) => WellFormed(inner)
    case List(item) => WellFormed(item)
    case Dict(value) => WellFormed(value)
    case Record(fields) =>
      forall k | k in fields ::
        && WellFormed(fields[k].schema)
        && (fields[k].missing.Some? ==> Typed(fields[k].schema, fields[k].missing.value))
        && (fields[k].omitNull ==> fields[k].missing == Some(Null))
    case _ => true
  }

  /** Reading back what a typed value serialises to gives that value. */
  lemma {:induction false} TypedDecodes(s: Schema, j: Json)
    requires WellFormed(s) && Typed(s, j)
    ensures Decode(s, j) == Some(j)
    decreases j, s
  {
    match s
    case Optional(inner) => if !j.Null? { TypedDecodes(inner, j); }
    case List(item) =>
      forall i | 0 <= i < |j.items| ensures Decode(item, j.items[i]) == Some(j.items[i]) {
        TypedDecodes(item, j.items[i]);
      }
      assert Decode(s, j).value.items == j.items;
    case Dict(value) =>
      forall k | k in j.members ensures Decode(value, j.members[k]) == Some(j.members[k]) {
        TypedDecodes(value, j.members[k]);
      }
      assert Decode(s, j).value.members == j.members;
    case Record(fields) =>
      forall k | k in fields ensures DecodeMember(fields[k], j, k) == if k in j.members then Some(j.members[k])
          else Some(Null) {
        if k in j.members { TypedDecodes(fields[k].schema, j.members[k]); }
      }
      assert Decode(s, j).value.members == j.members;
    case _ =>
  }

  /** Whatever reading yields is of the type read. */
  lemma {:induction false} DecodeIsTyped(s: Schema, j: Json)
    requires WellFormed(s) && Decode(s, j).Some?
    ensures Typed(s, Decode(s, j).value)
    decreases j, s
  {
    match s
    case Optional(inner) => if !j.Null? { DecodeIsTyped(inner, j); }
    case List(item) =>
      forall i | 0 <= i < |j.items| ensures Typed(item, Decode(item, j.items[i]).value) {
        DecodeIsTyped(item, j.items[i]);
      }
    case Dict(value) =>
      forall k | k in j.members ensures Typed(value, Decode(value, j.members[k]).value) {
        DecodeIsTyped(value, j.members[k]);
      }
    case Record(fields) =>
      forall k | k in fields ensures Typed(fields[k].schema, DecodeMember(fields[k], j, k).value) {
        if k in j.members { DecodeIsTyped(fields[k].schema, j.members[k]); }
      }
    case _ =>
  }

  // ---------------------------------------------------------------- what is accepted

  /** Each scalar type reads exactly the values of its kind, as they are; a float also reads integers. */
  lemma ScalarsRead(j: Json, lo: int, hi: int, names: set<string>)
    ensures Decode(Boolean, j) == Some(j) <==> j.Bool?
    ensures Decode(Integer(lo, hi), j) == Some(j) <==> j.Num? && lo <= j.n && j.n <= hi
    ensures Decode(Text, j) == Some(j) <==> j.Str?
    ensures Decode(Choice(names), j) == Some(j) <==> j.Str? && j.s in names
    ensures Decode(Floating, j) == Some(j) <==> j.Float?
    ensures j.Num? ==> Decode(Floating, j) == Some(Float(j.n as real / 1.0))
    ensures forall s | s in {Boolean, Integer(lo, hi), Text, Choice(names)} ::
              Decode(s, j).None? || Decode(s, j) == Some(j)
    ensures Decode(Floating, j).Some? <==> j.Float? || j.Num?
  {
  }

  /** A null is read as nothing there, and anything else as the type below. */
  lemma OptionalsRead(s: Schema, j: Json)
    ensures Decode(Optional(s), j) == if j == Null then Some(Null) else Decode(s, j)
  {
  }

  /** A list and a map are read exactly when each of their values is, value by value. */
  lemma ContainersRead(s: Schema, j: Json)
    ensures Decode(List(s), j).Some? <==> j.Arr? && forall i | 0 <= i < |j.items| :: Decode(s, j.items[i]).Some?
    ensures Decode(List(s), j).Some? ==>
              var r := Decode(List(s), j).value;
              r.Arr? && |r.items| == |j.items|
              && forall i | 0 <= i < |r.items| :: Decode(s, j.items[i]) == Some(r.items[i])
    ensures Decode(Dict(s), j).Some? <==> j.Obj? && forall k | k in j.members :: Decode(s, j.members[k]).Some?
    ensures Decode(Dict(s), j).Some? ==>
              var r := Decode(Dict(s), j).value;
              r.Obj? && r.members.Keys == j.members.Keys
              && forall k | k in j.members :: Decode(s, j.members[k]) == Some(r.members[k])
  {
  }

  /** A record is read exactly when every member that is there is read and every other has a default. The members that
      the type does not know are dropped, a missing one is its default, and a null of a field that leaves nulls out is
      left out. */
  lemma RecordsRead(fields: map<string, Field>, m: map<string, Json>)
    ensures Decode(Record(fields), Obj(m)).Some? <==>
            forall k | k in fields ::
              if k in m then Decode(fields[k].schema, m[k]).Some? else fields[k].missing.Some?
    ensures Decode(Record(fields), Obj(m)).Some? ==>
              var r := Decode(Record(fields), Obj(m)).value;
              r.Obj? && forall k ::
                var read := if k !in fields then None
                    else if k in m then Decode(fields[k].schema, m[k]) else fields[k].missing;
                Lookup(r.members, k) == if k in fields && fields[k].omitNull && read == Some(Null) then None else read
    ensures forall j: Json | !j.Obj? :: Decode(Record(fields), j) == None
  {
    forall k | k in fields ensures DecodeMember(fields[k], Obj(m), k) ==
        if k in m then Decode(fields[k].schema, m[k]) else fields[k].missing {}
  }

  // ---------------------------------------------------------------- descending into an object

  function Strip(s: Schema): (r: Schema)
    ensures !r.Optional?
  {
    if s.Optional? then Strip(s.inner) else s
  }

  /** The place that key `k` of an object of type `s` is read into; `None` when the key is unknown. */
  function Slot(s: Schema, k: string): Option<Field> {
    match Strip(s)
    case Dict(value) => Some(Field(value, None, false))
    case Record(fields) => Lookup(fields, k)
    case _ => None
  }

  /** A place may be empty, or hold a typed value that would be written. */
  ghost predicate Fits(f: Field, e: Option<Json>) {
    e.Some? ==> Typed(f.schema, e.value) && !Omits(f, e.value)
  }

  lemma {:induction false} StripTyped(s: Schema, j: Json)
    requires j != Null
    ensures Typed(s, j) == Typed(Strip(s), j)
    ensures Decode(s, j) == Decode(Strip(s), j)
    ensures WellFormed(s) == WellFormed(Strip(s))
  {
    if s.Optional? { StripTyped(s.inner, j); }
  }

  /** Every member of a typed object sits in a known place and fits it. */
  lemma MemberFits(s: Schema, j: Json, k: string)
    requires WellFormed(s) && Typed(s, j) && j.Obj? && k in j.members
    ensures Slot(s, k).Some? && Fits(Slot(s, k).value, Some(j.members[k])) && WellFormed(Slot(s, k).value.schema)
  {
    StripTyped(s, j);
  }
}
