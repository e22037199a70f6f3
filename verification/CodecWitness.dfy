/** The laws that are assumed of the text conversions can be met: a codec that meets them. */
module CodecWitness {
  import opened Json

  // ---------------------------------------------------------------- a text with an end that can be found

  function Wrap(s: string): string {
    if s == "" then ")" else ['\'', s[0]] + Wrap(s[1..])
  }

  lemma {:induction false} WrapEnds(a: string, x: string, b: string, y: string)
    requires Wrap(a) + x == Wrap(b) + y
    ensures a == b && x == y
  {
    var u, v := Wrap(a) + x, Wrap(b) + y;
    assert (a == "" <==> u[0] == ')') && (b == "" <==> v[0] == ')');
    if a == "" {
      assert u[1..] == x && v[1..] == y;
    } else {
      assert u[1] == a[0] && v[1] == b[0];
      assert u[2..] == Wrap(a[1..]) + x && v[2..] == Wrap(b[1..]) + y;
      WrapEnds(a[1..], x, b[1..], y);
      assert a == [a[0]] + a[1..] && b == [b[0]] + b[1..];
    }
  }

  lemma WrapsEnd(k: string, u: string, x: string, l: string, v: string, y: string)
    requires Wrap(k) + (Wrap(u) + x) == Wrap(l) + (Wrap(v) + y)
    ensures k == l && u == v && x == y
  {
    WrapEnds(k, Wrap(u) + x, l, Wrap(v) + y);
    WrapEnds(u, x, v, y);
  }

  lemma PutBack(m: map<string, Json>, k: string)
    requires k in m
    ensures m == (m - {k})[k := m[k]]
  {
  }

  lemma {:induction false} WrapIsLonger(s: string)
    ensures |Wrap(s)| > |s|
  {
    if s != "" { WrapIsLonger(s[1..]); }
  }

  lemma DecimalIsInjective(m: int, n: int)
    requires Decimal(m) == Decimal(n)
    ensures m == n
  {
    DecimalReads(m);
    DecimalReads(n);
  }

  lemma DecimalReads(n: int)
    ensures Decimal(n) != "" && (Decimal(n)[0] == '-' || IsDigit(Decimal(n)[0]))
    ensures Decimal(n)[0] == '-' <==> n < 0
    ensures ParseDigits(if n < 0 then Decimal(n)[1..] else Decimal(n)) == Some(if n < 0 then -n else n)
  {
    ParseDigitsInverts(if n < 0 then -n else n);
  }

  // ---------------------------------------------------------------- values

  /** A ratio of integers that the number is. */
  ghost function Parts(r: Double): (p: (int, nat))
    ensures p.1 > 0 && Ratio(p.0, p.1) == r
  {
    assert IsRatio(r);
    var n: int, d: nat :| d > 0 && Ratio(n, d) == r;
    (n, d)
  }

  ghost function Show(j: Json): string
    decreases j, 1, 0
  {
    match j
    case Null => "null"
    case Bool(b) => BoolText(b)
    case Num(n) => Decimal(n)
    case Float(r) => "r" + (Wrap(Decimal(Parts(r).0)) + Wrap(Decimal(Parts(r).1)))
    case Str(s) => "s" + Wrap(s)
    case Arr(items) => "a" + ShowItems(j, items)
    case Obj(members) => "o" + ShowMembers(j, members)
  }

  ghost function ShowItems(j: Json, items: seq<Json>): string
    requires j.Arr? && forall i | 0 <= i < |items| :: items[i] in j.items
    decreases j, 0, |items|
  {
    if items == [] then "]" else "," + (Wrap(Show(items[0])) + ShowItems(j, items[1..]))
  }

  ghost predicate Part(m: map<string, Json>, j: Json) {
    j.Obj? && forall k | k in m :: k in j.members && j.members[k] == m[k]
  }

  /** The members in some order. */
  ghost function ShowMembers(j: Json, m: map<string, Json>): string
    requires Part(m, j)
    decreases j, 0, |m|
  {
    if m == map[] then "}"
    else
      var k :| k in m;
      assert m[k] == j.members[k];
      assert |m - {k}| < |m| by { assert (m - {k}).Keys == m.Keys - {k}; }
      "," + (Wrap(k) + (Wrap(Show(m[k])) + ShowMembers(j, m - {k})))
  }

  // ---------------------------------------------------------------- different values, different texts

  lemma FirstChar(j: Json)
    ensures var s := Show(j);
            && s != ""
            && (j.Null? <==> s[0] == 'n') && (j.Bool? <==> s[0] == 't' || s[0] == 'f')
            && (j.Num? <==> s[0] == '-' || IsDigit(s[0])) && (j.Float? <==> s[0] == 'r')
            && (j.Str? <==> s[0] == 's') && (j.Arr? <==> s[0] == 'a') && (j.Obj? <==> s[0] == 'o')
  {
    if j.Num? { DecimalReads(j.n); }
  }

  lemma FloatIsInjective(r: Double, q: Double)
    requires Show(Float(r)) == Show(Float(q))
    ensures r == q
  {
    var a, b := Parts(r), Parts(q);
    assert Show(Float(r))[1..] == Wrap(Decimal(a.0)) + Wrap(Decimal(a.1));
    assert Show(Float(q))[1..] == Wrap(Decimal(b.0)) + Wrap(Decimal(b.1));
    WrapEnds(Decimal(a.0), Wrap(Decimal(a.1)), Decimal(b.0), Wrap(Decimal(b.1)));
    assert Wrap(Decimal(a.1)) + "" == Wrap(Decimal(b.1)) + "";
    WrapEnds(Decimal(a.1), "", Decimal(b.1), "");
    DecimalIsInjective(a.0, b.0);
    DecimalIsInjective(a.1, b.1);
  }

  lemma StrIsInjective(s: string, t: string)
    requires Show(Str(s)) == Show(Str(t))
    ensures s == t
  {
    assert Show(Str(s))[1..] == Wrap(s) && Show(Str(t))[1..] == Wrap(t);
    assert Wrap(s) + "" == Wrap(t) + "";
    WrapEnds(s, "", t, "");
  }

  lemma {:induction false} ShowIsInjective(a: Json, b: Json)
    requires Show(a) == Show(b)
    ensures a == b
    decreases a, 1, 0
  {
    FirstChar(a);
    FirstChar(b);
    match a
    case Null =>
    case Bool(_) =>
    case Num(n) => DecimalIsInjective(n, b.n);
    case Float(r) => FloatIsInjective(r, b.r);
    case Str(s) => StrIsInjective(s, b.s);
    case Arr(items) =>
      assert Show(a)[1..] == ShowItems(a, items) && Show(b)[1..] == ShowItems(b, b.items);
      ItemsAreInjective(a, items, b, b.items);
    case Obj(members) =>
      assert Show(a)[1..] == ShowMembers(a, members) && Show(b)[1..] == ShowMembers(b, b.members);
      MembersAreInjective(a, members, b, b.members);
  }

  lemma {:induction false} ItemsAreInjective(a: Json, x: seq<Json>, b: Json, y: seq<Json>)
    requires a.Arr? && (forall i | 0 <= i < |x| :: x[i] in a.items)
    requires b.Arr? && (forall i | 0 <= i < |y| :: y[i] in b.items)
    requires ShowItems(a, x) == ShowItems(b, y)
    ensures x == y
    decreases a, 0, |x|
  {
    assert (x == [] <==> ShowItems(a, x)[0] == ']') && (y == [] <==> ShowItems(b, y)[0] == ']');
    if x != [] {
      assert ShowItems(a, x)[1..] == Wrap(Show(x[0])) + ShowItems(a, x[1..]);
      assert ShowItems(b, y)[1..] == Wrap(Show(y[0])) + ShowItems(b, y[1..]);
      WrapEnds(Show(x[0]), ShowItems(a, x[1..]), Show(y[0]), ShowItems(b, y[1..]));
      ShowIsInjective(x[0], y[0]);
      ItemsAreInjective(a, x[1..], b, y[1..]);
      assert x == [x[0]] + x[1..] && y == [y[0]] + y[1..];
    }
  }

  /** The first member shown. */
  lemma ShownFirst(j: Json, m: map<string, Json>) returns (k: string)
    requires Part(m, j) && m != map[]
    ensures k in m && m[k] == j.members[k] && Part(m - {k}, j) && |m - {k}| < |m|
    ensures ShowMembers(j, m)[0] == ',' && ShowMembers(j, m)[1..] == Wrap(k)
        + (Wrap(Show(m[k])) + ShowMembers(j, m - {k}))
  {
    k :| k in m && ShowMembers(j, m) == "," + (Wrap(k) + (Wrap(Show(m[k])) + ShowMembers(j, m - {k})));
    assert (m - {k}).Keys == m.Keys - {k};
  }

  lemma {:induction false} MembersAreInjective(a: Json, m: map<string, Json>, b: Json, n: map<string, Json>)
    requires Part(m, a) && Part(n, b) && ShowMembers(a, m) == ShowMembers(b, n)
    ensures m == n
    decreases a, 0, |m|
  {
    assert (m == map[] ==> ShowMembers(a, m)[0] == '}') && (n == map[] ==> ShowMembers(b, n)[0] == '}');
    if m != map[] && n != map[] {
      var k := ShownFirst(a, m);
      var l := ShownFirst(b, n);
      WrapsEnd(k, Show(m[k]), ShowMembers(a, m - {k}), l, Show(n[l]), ShowMembers(b, n - {l}));
      ShowIsInjective(m[k], n[l]);
      MembersAreInjective(a, m - {k}, b, n - {l});
      PutBack(m, k);
      PutBack(n, l);
    } else if m != map[] {
      var k := ShownFirst(a, m);
    } else if n != map[] {
      var l := ShownFirst(b, n);
    }
  }

  // ---------------------------------------------------------------- the codec

  ghost function Parse(s: string): Option<Json> {
    if exists j :: Show(j) == s then var j :| Show(j) == s; Some(j) else None
  }

  ghost function ParseFloat(s: string): Option<Parsed64> {
    if exists r: Double :: Show(Float(r)) == s then var r: Double :| Show(Float(r)) == s; Some(Finite(r)) else None
  }

  lemma ParseInverts(j: Json)
    ensures Parse(Show(j)) == Some(j)
  {
    var text := Show(j);
    var i := Parse(text).value;
    assert Show(i) == text;
    ShowIsInjective(i, j);
  }

  lemma ParseFloatInverts(r: Double)
    ensures ParseFloat(Show(Float(r))) == Some(Finite(r))
  {
    var q := ParseFloat(Show(Float(r))).value.r;
    FloatIsInjective(q, r);
  }

  lemma NoStringIsItsOwnText(x: string)
    ensures Parse(x) != Some(Str(x))
  {
    WrapIsLonger(x);
    assert |Show(Str(x))| > |x|;
  }

  lemma PlainTexts()
    ensures Show(Null) == "null" && forall b :: Show(Bool(b)) == BoolText(b)
    ensures forall n: Whole :: Show(Num(n)) == Decimal(n)
  {
  }

  /** The laws, for any three conversions that meet them. */
  lemma Assemble(show: Json -> string, parse: string -> Option<Json>, parseFloat: string -> Option<Parsed64>)
    requires (forall j :: parse(show(j)) == Some(j)) && (forall x: string :: parse(x) != Some(Str(x)))
    requires forall r: Double :: parseFloat(show(Float(r))) == Some(Finite(r))
    requires show(Null) == "null" && forall b :: show(Bool(b)) == BoolText(b)
    requires forall n: Whole :: show(Num(n)) == Decimal(n)
    ensures exists c: Codec :: c.Lawful()
  {
    assert Codec(show, parse, parseFloat).Lawful();
  }

  /** There is a lawful codec. */
  lemma LawfulCodecExists()
    ensures exists c: Codec :: c.Lawful()
  {
    forall j ensures Parse(Show(j)) == Some(j) { ParseInverts(j); }
    forall r: Double ensures ParseFloat(Show(Float(r))) == Some(Finite(r)) { ParseFloatInverts(r); }
    forall x: string ensures Parse(x) != Some(Str(x)) { NoStringIsItsOwnText(x); }
    PlainTexts();
    Assemble(Show, Parse, ParseFloat);
  }
}
