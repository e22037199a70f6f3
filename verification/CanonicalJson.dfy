/** Canonical JSON: sorting object keys at every depth, and the fingerprint of a batch of tool calls. */
module CanonicalJson {

  /** A JSON value as written: an object is its members in order. */
  datatype Written =
    | Scalar(text: string)
    | List(items: seq<Written>)
    | Object(members: seq<Member>)

  datatype Member = Member(key: string, value: Written)

  /** As in section 4 of RFC 8259 names within an object should be unique; serde_json makes them so. */
  predicate Distinct(w: Written) {
    match w
    case Scalar(_) => true
    case List(items) => forall i | 0 <= i < |items| :: Distinct(items[i])
    case Object(ms) =>
      && (forall i, j | 0 <= i < j < |ms| :: ms[i].key != ms[j].key)
      && forall i | 0 <= i < |ms| :: Distinct(ms[i].value)
  }

  // ---------------------------------------------------------------- canonical form

  /** The order of Rust strings: by code point. */
  predicate Before(a: string, b: string) {
    if a == "" then true
    else if b == "" then false
    else a[0] < b[0] || (a[0] == b[0] && Before(a[1..], b[1..]))
  }

  predicate Sorted(ms: seq<Member>) {
    forall i, j | 0 <= i < j < |ms| :: Before(ms[i].key, ms[j].key)
  }

  function Insert(m: Member, ms: seq<Member>): seq<Member> {
    if ms == [] || Before(m.key, ms[0].key) then [m] + ms else [ms[0]] + Insert(m, ms[1..])
  }

  /** The canonical form: members sorted by key, each value in canonical form. */
  function Canonical(w: Written): Written {
    match w
    case Scalar(_) => w
    case List(items) => List(seq(|items|, i requires 0 <= i < |items| => Canonical(items[i])))
    case Object(ms) => Object(CanonicalMembers(ms))
  }

  function CanonicalMembers(ms: seq<Member>): seq<Member> {
    if ms == [] then []
    else Insert(Member(ms[0].key, Canonical(ms[0].value)), CanonicalMembers(ms[1..]))
  }

  // ---------------------------------------------------------------- the order of strings

  lemma {:induction false} BeforeIsTotal(a: string, b: string)
    ensures Before(a, b) || Before(b, a)
    ensures Before(a, b) && Before(b, a) ==> a == b
    ensures Before(a, a)
  {
    if a != "" && b != "" && a[0] == b[0] { BeforeIsTotal(a[1..], b[1..]); }
    if a != "" { BeforeIsTotal(a[1..], a[1..]); }
    if a != "" && b != "" { assert a == [a[0]] + a[1..] && b == [b[0]] + b[1..]; }
  }

  lemma {:induction false} BeforeIsTransitive(a: string, b: string, c: string)
    requires Before(a, b) && Before(b, c)
    ensures Before(a, c)
  {
    if a != "" && b != "" && c != "" && a[0] == b[0] == c[0] { BeforeIsTransitive(a[1..], b[1..], c[1..]); }
  }

  // ---------------------------------------------------------------- sorting

  /** Keys occur once, so sorting has one outcome. */
  predicate Keyed(ms: seq<Member>) { forall i, j | 0 <= i < j < |ms| :: ms[i].key != ms[j].key }

  lemma {:induction false} InsertSorts(m: Member, ms: seq<Member>)
    requires Sorted(ms) && Keyed(ms) && forall i | 0 <= i < |ms| :: ms[i].key != m.key
    ensures Sorted(Insert(m, ms)) && Keyed(Insert(m, ms))
    ensures forall x :: x in Insert(m, ms) <==> x == m || x in ms
    ensures |Insert(m, ms)| == |ms| + 1
  {
    if ms == [] {
    } else if Before(m.key, ms[0].key) {
      forall i | 0 <= i < |ms| ensures Before(m.key, ms[i].key) {
        if i > 0 { BeforeIsTransitive(m.key, ms[0].key, ms[i].key); }
      }
    } else {
      var rest := Insert(m, ms[1..]);
      InsertSorts(m, ms[1..]);
      assert ms == [ms[0]] + ms[1..];
      forall i | 0 <= i < |rest| ensures Before(ms[0].key, rest[i].key) && ms[0].key != rest[i].key {
        assert rest[i] in rest;
        BeforeIsTotal(m.key, ms[0].key);
        if rest[i] != m { assert rest[i] in ms[1..]; }
      }
    }
  }

  /** The members with their values in canonical form, in the order given. */
  function Mapped(ms: seq<Member>): seq<Member> {
    seq(|ms|, i requires 0 <= i < |ms| => Member(ms[i].key, Canonical(ms[i].value)))
  }

  lemma {:induction false} CanonicalMembersSort(ms: seq<Member>)
    requires Keyed(ms)
    ensures Sorted(CanonicalMembers(ms)) && Keyed(CanonicalMembers(ms))
    ensures forall x :: x in CanonicalMembers(ms) <==> x in Mapped(ms)
    ensures |CanonicalMembers(ms)| == |ms|
  {
    if ms != [] {
      var m, rest := Member(ms[0].key, Canonical(ms[0].value)), CanonicalMembers(ms[1..]);
      CanonicalMembersSort(ms[1..]);
      assert Mapped(ms) == [m] + Mapped(ms[1..]);
      forall i | 0 <= i < |rest| ensures rest[i].key != m.key { assert rest[i] in Mapped(ms[1..]); }
      InsertSorts(m, rest);
    }
  }

  lemma SortedHeadsAgree(a: seq<Member>, b: seq<Member>)
    requires Sorted(a) && Sorted(b) && Keyed(a) && a != [] && b != []
    requires forall x :: x in a <==> x in b
    ensures a[0] == b[0]
  {
    assert a[0] in b && b[0] in a;
    var i :| 0 <= i < |b| && b[i] == a[0];
    var j :| 0 <= j < |a| && a[j] == b[0];
    BeforeIsTotal(a[0].key, b[0].key);
  }

  lemma TailMembers(ms: seq<Member>)
    requires Keyed(ms) && ms != []
    ensures forall x :: x in ms[1..] <==> x in ms && x != ms[0]
  {
    assert ms == [ms[0]] + ms[1..];
  }

  lemma {:induction false} SortedIsUnique(a: seq<Member>, b: seq<Member>)
    requires Sorted(a) && Sorted(b) && Keyed(a) && Keyed(b) && |a| == |b|
    requires forall x :: x in a <==> x in b
    ensures a == b
  {
    if a != [] {
      SortedHeadsAgree(a, b);
      TailMembers(a);
      TailMembers(b);
      SortedIsUnique(a[1..], b[1..]);
    }
  }

  // ---------------------------------------------------------------- equal up to the order of keys

  /** The same value, but for the order of object members at any depth. */
  predicate Same(a: Written, b: Written)
    decreases a
  {
    match (a, b)
    case (Scalar(x), Scalar(y)) => x == y
    case (List(x), List(y)) => |x| == |y| && forall i | 0 <= i < |x| :: Same(x[i], y[i])
    case (Object(x), Object(y)) =>
      && |x| == |y|
      && forall i | 0 <= i < |x| :: exists j | 0 <= j < |y| :: x[i].key == y[j].key && Same(x[i].value, y[j].value)
    case _ => false
  }

  function Keys(ms: seq<Member>): set<string> { set i | 0 <= i < |ms| :: ms[i].key }

  lemma {:induction false} KeysCount(ms: seq<Member>)
    requires Keyed(ms)
    ensures |Keys(ms)| == |ms|
  {
    if ms != [] {
      var n := |ms| - 1;
      KeysCount(ms[..n]);
      assert Keys(ms) == Keys(ms[..n]) + {ms[n].key};
    }
  }

  lemma SubsetOfSameSize(a: set<string>, b: set<string>)
    requires a <= b && |a| == |b|
    ensures a == b
  {
    assert b == a + (b - a);
    assert |b| == |a| + |b - a|;
  }

  /** Each member of the one matches a member of the other, and the numbers agree, so it is a bijection. */
  lemma MatchedBack(x: seq<Member>, y: seq<Member>, j: nat)
    requires Keyed(x) && Keyed(y) && Same(Object(x), Object(y)) && j < |y|
    ensures exists i | 0 <= i < |x| :: x[i].key == y[j].key && Same(x[i].value, y[j].value)
  {
    KeysCount(x);
    KeysCount(y);
    assert Keys(x) <= Keys(y);
    SubsetOfSameSize(Keys(x), Keys(y));
    assert y[j].key in Keys(x);
    var i :| 0 <= i < |x| && x[i].key == y[j].key;
    var k :| 0 <= k < |y| && x[i].key == y[k].key && Same(x[i].value, y[k].value);
    assert k == j;
  }

  lemma MappedAgree(x: seq<Member>, y: seq<Member>)
    requires Keyed(x) && Keyed(y) && Same(Object(x), Object(y))
    requires forall i, j | 0 <= i < |x| && 0 <= j < |y| && Same(x[i].value, y[j].value) ::
               Canonical(x[i].value) == Canonical(y[j].value)
    ensures forall m :: m in Mapped(x) <==> m in Mapped(y)
  {
    forall i | 0 <= i < |x| ensures Mapped(x)[i] in Mapped(y) {
      var j :| 0 <= j < |y| && x[i].key == y[j].key && Same(x[i].value, y[j].value);
      assert Mapped(y)[j] == Mapped(x)[i];
    }
    forall j | 0 <= j < |y| ensures Mapped(y)[j] in Mapped(x) {
      MatchedBack(x, y, j);
      var i :| 0 <= i < |x| && x[i].key == y[j].key && Same(x[i].value, y[j].value);
      assert Mapped(x)[i] == Mapped(y)[j];
    }
  }

  lemma {:induction false} SameMeansCanonical(a: Written, b: Written)
    requires Distinct(a) && Distinct(b) && Same(a, b)
    ensures Canonical(a) == Canonical(b)
    decreases a
  {
    match (a, b)
    case (List(x), List(y)) =>
      forall i | 0 <= i < |x| ensures Canonical(x[i]) == Canonical(y[i]) { SameMeansCanonical(x[i], y[i]); }
      assert Canonical(a).items == Canonical(b).items;
    case (Object(x), Object(y)) =>
      forall i, j | 0 <= i < |x| && 0 <= j < |y| && Same(x[i].value, y[j].value)
        ensures Canonical(x[i].value) == Canonical(y[j].value)
      {
        SameMeansCanonical(x[i].value, y[j].value);
      }
      MappedAgree(x, y);
      CanonicalMembersSort(x);
      CanonicalMembersSort(y);
      SortedIsUnique(CanonicalMembers(x), CanonicalMembers(y));
    case _ =>
  }

  lemma {:induction false} CanonicalMeansSame(a: Written, b: Written)
    requires Distinct(a) && Distinct(b) && Canonical(a) == Canonical(b)
    ensures Same(a, b)
    decreases a
  {
    match (a, b)
    case (List(x), List(y)) =>
      forall i | 0 <= i < |x| ensures Same(x[i], y[i]) {
        assert Canonical(a).items[i] == Canonical(b).items[i];
        CanonicalMeansSame(x[i], y[i]);
      }
    case (Object(x), Object(y)) =>
      CanonicalMembersSort(x);
      CanonicalMembersSort(y);
      forall i | 0 <= i < |x| ensures exists j | 0 <= j < |y| :: x[i].key == y[j].key && Same(x[i].value, y[j].value) {
        assert Mapped(x)[i] in Mapped(x);
        assert Mapped(x)[i] in CanonicalMembers(y);
        var j :| 0 <= j < |y| && Mapped(y)[j] == Mapped(x)[i];
        CanonicalMeansSame(x[i].value, y[j].value);
      }
    case _ =>
  }

  /** Canonical forms are equal exactly when the values differ only in the order of object members. */
  lemma CanonicalCharacterisesSame(a: Written, b: Written)
    requires Distinct(a) && Distinct(b)
    ensures Canonical(a) == Canonical(b) <==> Same(a, b)
  {
    if Same(a, b) { SameMeansCanonical(a, b); }
    if Canonical(a) == Canonical(b) { CanonicalMeansSame(a, b); }
  }

  /** The canonical form is the value itself, reordered. */
  lemma {:induction false} CanonicalIsSame(w: Written)
    requires Distinct(w)
    ensures Distinct(Canonical(w)) && Same(Canonical(w), w)
  {
    match w
    case Scalar(_) =>
    case List(items) =>
      forall i | 0 <= i < |items| ensures Distinct(Canonical(items[i])) && Same(Canonical(items[i]), items[i]) {
        CanonicalIsSame(items[i]);
      }
    case Object(ms) =>
      var cs := CanonicalMembers(ms);
      CanonicalMembersSort(ms);
      forall i | 0 <= i < |cs|
        ensures Distinct(cs[i].value)
        ensures exists j | 0 <= j < |ms| :: cs[i].key == ms[j].key && Same(cs[i].value, ms[j].value)
      {
        assert cs[i] in Mapped(ms);
        var j :| 0 <= j < |ms| && Mapped(ms)[j] == cs[i];
        CanonicalIsSame(ms[j].value);
      }
  }

  lemma CanonicalIsIdempotent(w: Written)
    requires Distinct(w)
    ensures Canonical(Canonical(w)) == Canonical(w)
  {
    CanonicalIsSame(w);
    SameMeansCanonical(Canonical(w), w);
  }

  // ---------------------------------------------------------------- fingerprints

  datatype ToolCall = ToolCall(name: string, arguments: Written)

  /** The hasher, as a function of what it was fed, and the printing of a value. */
  datatype Hashing = Hashing(finish: seq<string> -> nat, show: Written -> string)

  /** What the loop over the batch feeds the hasher. */
  function Fed(h: Hashing, calls: seq<ToolCall>): seq<string> {
    if calls == [] then []
    else
      var call := calls[|calls| - 1];
      Fed(h, calls[..|calls| - 1]) + [call.name, h.show(Canonical(call.arguments))]
  }

  method Fingerprint(h: Hashing, calls: seq<ToolCall>) returns (fp: nat)
    ensures fp == h.finish(Fed(h, calls))
  {
    var hasher: seq<string> := [];
    for i := 0 to |calls|
      invariant hasher == Fed(h, calls[..i])
    {
      assert calls[..i + 1][..i] == calls[..i];
      hasher := hasher + [calls[i].name];
      hasher := hasher + [h.show(Canonical(calls[i].arguments))];
    }
    assert calls[..|calls|] == calls;
    fp := h.finish(hasher);
  }

  /** The same tools in the same order, with arguments that differ only in the order of object members. */
  predicate SameBatch(a: seq<ToolCall>, b: seq<ToolCall>) {
    |a| == |b| && forall i | 0 <= i < |a| :: a[i].name == b[i].name && Same(a[i].arguments, b[i].arguments)
  }

  predicate DistinctBatch(a: seq<ToolCall>) {
    forall i | 0 <= i < |a| :: Distinct(a[i].arguments)
  }

  /** No two values print alike. */
  ghost predicate Faithful(h: Hashing) {
    forall v, w :: h.show(v) == h.show(w) ==> v == w
  }

  lemma {:induction false} FedLength(h: Hashing, calls: seq<ToolCall>)
    ensures |Fed(h, calls)| == 2 * |calls|
  {
    if calls != [] { FedLength(h, calls[..|calls| - 1]); }
  }

  lemma FedLast(h: Hashing, a: seq<ToolCall>)
    requires a != []
    ensures var n := |a| - 1;
            |Fed(h, a[..n])| == 2 * n
            && Fed(h, a) == Fed(h, a[..n]) + [a[n].name, h.show(Canonical(a[n].arguments))]
  {
    FedLength(h, a[..|a| - 1]);
  }

  lemma SameAtEnd(x: seq<string>, y: seq<string>, p: string, q: string, u: string, v: string)
    requires |x| == |y|
    ensures x + [p, q] == y + [u, v] <==> x == y && p == u && q == v
  {
    assert (x + [p, q])[..|x|] == x && (y + [u, v])[..|y|] == y;
    assert (x + [p, q])[|x|] == p && (y + [u, v])[|y|] == u && (x + [p, q])[|x| + 1] == q && (y + [u, v])[|y| + 1] == v;
  }

  /** The hasher is fed the same for two batches exactly when they are the same up to key order; so those
      batches have one fingerprint, and others differ unless the hash collides. */
  lemma {:induction false} FedCharacterisesBatch(h: Hashing, a: seq<ToolCall>, b: seq<ToolCall>)
    requires Faithful(h) && DistinctBatch(a) && DistinctBatch(b)
    ensures Fed(h, a) == Fed(h, b) <==> SameBatch(a, b)
  {
    FedLength(h, a);
    FedLength(h, b);
    if |a| == |b| && a != [] {
      var n := |a| - 1;
      FedCharacterisesBatch(h, a[..n], b[..n]);
      FedLast(h, a);
      FedLast(h, b);
      CanonicalCharacterisesSame(a[n].arguments, b[n].arguments);
      SameAtEnd(Fed(h, a[..n]), Fed(h, b[..n]), a[n].name, h.show(Canonical(a[n].arguments)), b[n].name,
        h.show(Canonical(b[n].arguments)));
      assert SameBatch(a, b) <==>
             SameBatch(a[..n], b[..n]) && a[n].name == b[n].name && Same(a[n].arguments, b[n].arguments);
    }
  }
}
