/** JSON values as serde_json holds them, and the text forms that the settings code converts through. */
module Json {

  datatype Option<+T> = None | Some(value: T)

  const MIN_I64: int := -0x8000_0000_0000_0000
  const MAX_I64: int := 0x7FFF_FFFF_FFFF_FFFF
  const MAX_U64: int := 0xFFFF_FFFF_FFFF_FFFF

  /** The integers that `serde_json::Number` keeps as integers: every `u64` and every `i64`. */
  type Whole = n: int | MIN_I64 <= n <= MAX_U64

  function Ratio(n: int, d: nat): real
    requires d > 0
  {
    n as real / d as real
  }

  ghost predicate IsRatio(r: real) { exists n: int, d: nat :: d > 0 && Ratio(n, d) == r }

  /** Every finite `f64` is a ratio of integers. Rounding is not modelled. */
  type Double = r: real | IsRatio(r) witness Ratio(0, 1)

  /** An object is a map because `serde_json::Value` compares objects without regard to order. */
  datatype Json =
    | Null
    | Bool(b: bool)
    | Num(n: Whole)
    | Float(r: Double)
    | Str(s: string)
    | Arr(items: seq<Json>)
    | Obj(members: map<string, Json>)

  function Lookup<V>(m: map<string, V>, k: string): Option<V> {
    if k in m then Some(m[k]) else None
  }

  /** Writes `e` at `k`; writing `None` removes the key. */
  function Store(m: map<string, Json>, k: string, e: Option<Json>): map<string, Json> {
    match e
    case None => m - {k}
    case Some(v) => m[k := v]
  }

  /** What `str::parse::<f64>` yields: a finite number, or one of the non-finite spellings. */
  datatype Parsed64 = Finite(r: Double) | NonFinite

  /** The text conversions of serde_json and of `f64`, as parameters of the model. */
  datatype Codec = Codec(
    show: Json -> string,
    parse: string -> Option<Json>,
    parseFloat: string -> Option<Parsed64>)
  {
    /** Printing then parsing gives the value back, numbers print as decimals, and no string is the
        JSON text of itself (the text is at least two quotes longer). */
    ghost predicate Lawful() {
      && (forall j :: parse(show(j)) == Some(j))
      && (forall n: Whole :: show(Num(n)) == Decimal(n))
      && show(Null) == "null"
      && (forall b :: show(Bool(b)) == BoolText(b))
      && (forall r: Double :: parseFloat(show(Float(r))) == Some(Finite(r)))
      && (forall x: string :: parse(x) != Some(Str(x)))
    }
  }

  function BoolText(b: bool): string { if b then "true" else "false" }

  /** `str::parse::<bool>`. */
  function ParseBool(s: string): Option<bool> {
    if s == "true" then Some(true) else if s == "false" then Some(false) else None
  }

  // ---------------------------------------------------------------- decimal integers

  function Digit(d: nat): char
    requires d < 10
  {
    '0' + d as char
  }

  function Digits(n: nat): string {
    if n < 10 then [Digit(n)] else Digits(n / 10) + [Digit(n % 10)]
  }

  function Decimal(n: int): string {
    if n < 0 then "-" + Digits(-n) else Digits(n)
  }

  predicate IsDigit(c: char) { '0' <= c <= '9' }

  /** The value of a non-empty run of digits. */
  function ParseDigits(s: string): Option<nat> {
    if s == [] then None
    else
      var c := s[|s| - 1];
      if !IsDigit(c) then None
      else
        var d := (c - '0') as nat;
        if |s| == 1 then Some(d)
        else match ParseDigits(s[..|s| - 1])
          case None => None
          case Some(v) => Some(v * 10 + d)
  }

  /** `str::parse::<u64>`: an optional plus sign, then digits, within range. */
  function ParseU64(s: string): (r: Option<nat>)
    ensures r.Some? ==> r.value <= MAX_U64
  {
    var body := if s != [] && s[0] == '+' then s[1..] else s;
    match ParseDigits(body)
    case Some(n) => if n <= MAX_U64 then Some(n) else None
    case None => None
  }

  /** `str::parse::<i64>`: an optional sign, then digits, within range. */
  function ParseI64(s: string): (r: Option<int>)
    ensures r.Some? ==> MIN_I64 <= r.value <= MAX_I64
  {
    if s != [] && s[0] == '-' then
      match ParseDigits(s[1..])
      case Some(n) => if MIN_I64 + n <= 0 then Some(0 - n) else None
      case None => None
    else
      var body := if s != [] && s[0] == '+' then s[1..] else s;
      match ParseDigits(body)
      case Some(n) => if n <= MAX_I64 then Some(n) else None
      case None => None
  }

  lemma {:induction false} ParseDigitsInverts(n: nat)
    ensures ParseDigits(Digits(n)) == Some(n)
    ensures Digits(n) != [] && IsDigit(Digits(n)[0])
  {
    if n >= 10 {
      ParseDigitsInverts(n / 10);
      assert Digits(n)[..|Digits(n)| - 1] == Digits(n / 10);
    }
  }

  /** Each integer parser reads back a printed integer exactly when it is in the parser's range. */
  lemma ParseIntegerInverts(n: int)
    ensures ParseU64(Decimal(n)) == if 0 <= n <= MAX_U64 then Some(n) else None
    ensures ParseI64(Decimal(n)) == if MIN_I64 <= n <= MAX_I64 then Some(n) else None
  {
    var m: nat := if n < 0 then -n else n;
    ParseDigitsInverts(m);
    if n < 0 {
      assert Decimal(n)[1..] == Digits(m);
      NotDigits(Decimal(n));
    }
  }

  lemma {:induction false} NotDigits(s: string)
    requires s != [] && s[0] == '-'
    ensures ParseDigits(s) == None
  {
    if |s| > 1 { NotDigits(s[..|s| - 1]); }
  }
}
