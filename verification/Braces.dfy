/** The gateway scanner's brace walks: blanking test modules and finding the body of a grouped import. */
module Braces {
  import opened Texts
  import opened LineBreaks

  function Weight(c: char): int { if c == '{' then 1 else if c == '}' then -1 else 0 }

  /** Opening braces less closing braces. */
  function Net(s: string): int {
    if s == "" then 0 else Net(s[..|s| - 1]) + Weight(s[|s| - 1])
  }

  lemma {:induction false} NetConcat(a: string, b: string)
    ensures Net(a + b) == Net(a) + Net(b)
  {
    if b == "" {
      assert a + b == a;
    } else {
      assert (a + b)[..|a + b| - 1] == a + b[..|b| - 1];
      NetConcat(a, b[..|b| - 1]);
    }
  }

  lemma NetNext(s: string, from: nat, k: nat)
    requires from <= k < |s|
    ensures Net(s[from..k + 1]) == Net(s[from..k]) + Weight(s[k])
  {
    assert s[from..k + 1][..k - from] == s[from..k];
  }

  // ---------------------------------------------------------------- walking to the matching brace

  datatype Stop = Stop(at: nat, depth: nat)

  /** Where the walk stops: just past the brace that brings the depth to zero, or at the end of the text. */
  function Walk(s: string, j: nat, depth: nat): (r: Stop)
    requires j <= |s|
    ensures j <= r.at <= |s| && (r.depth == 0 || r.at == |s|)
    decreases |s| - j
  {
    if j == |s| || depth == 0 then Stop(j, depth)
    else Walk(s, j + 1, if s[j] == '{' then depth + 1 else if s[j] == '}' then depth - 1 else depth)
  }

  method WalkToClose(s: string, open: nat) returns (r: Stop)
    requires open < |s|
    ensures r == Walk(s, open + 1, 1)
  {
    var depth := 1;
    var j := open + 1;
    while j < |s| && depth > 0
      invariant open < j <= |s| && Walk(s, open + 1, 1) == Walk(s, j, depth)
      decreases |s| - j
    {
      var ch := s[j];
      if ch == '{' { depth := depth + 1; } else if ch == '}' { depth := depth - 1; }
      j := j + 1;
    }
    r := Stop(j, depth);
  }

  /** From `from` to just before `k` no more is closed than was opened. */
  ghost predicate StaysOpen(s: string, from: nat, k: nat)
    requires from <= k <= |s|
  {
    forall i | from <= i <= k :: Net(s[from..i]) >= 0
  }

  /** Where a walk from `from` may stop: just past a brace that closes what was open before `from`, or at
      the end of the text with something open. */
  ghost predicate StopsAt(s: string, from: nat, r: Stop)
    requires from <= r.at <= |s|
  {
    && r.depth == 1 + Net(s[from..r.at])
    && if r.depth == 0 then from < r.at && s[r.at - 1] == '}' && StaysOpen(s, from, r.at - 1)
        && Net(s[from..r.at - 1]) == 0
       else r.at == |s| && StaysOpen(s, from, |s|)
  }

  lemma StaysOpenNext(s: string, from: nat, j: nat)
    requires from <= j < |s| && StaysOpen(s, from, j) && Net(s[from..j]) + Weight(s[j]) >= 0
    ensures StaysOpen(s, from, j + 1)
  {
    NetNext(s, from, j);
  }

  /** The walk in terms of the text alone. */
  lemma {:induction false} WalkMeans(s: string, from: nat, j: nat, depth: nat)
    requires from <= j <= |s| && StaysOpen(s, from, j) && depth > 0 && depth == 1 + Net(s[from..j])
    ensures StopsAt(s, from, Walk(s, j, depth))
    decreases |s| - j
  {
    if j < |s| {
      NetNext(s, from, j);
      var next := depth + Weight(s[j]);
      if next > 0 {
        StaysOpenNext(s, from, j);
        WalkMeans(s, from, j + 1, next);
      }
    }
  }

  lemma WalkFrom(s: string, open: nat)
    requires open < |s|
    ensures StopsAt(s, open + 1, Walk(s, open + 1, 1))
  {
    WalkMeans(s, open + 1, open + 1, 1);
  }

  // ---------------------------------------------------------------- the body of a grouped import

  function BodyEnd(s: string, open: nat): nat
    requires open < |s|
  {
    var r := Walk(s, open + 1, 1);
    if r.depth == 0 && r.at > 0 then r.at - 1 else |s|
  }

  method GroupBody(s: string, open: nat) returns (body: string)
    requires open < |s|
    ensures open < BodyEnd(s, open) <= |s| && body == s[open + 1..BodyEnd(s, open)]
  {
    WalkFrom(s, open);
    var r := WalkToClose(s, open);
    var bodyEnd := if r.depth == 0 then r.at - 1 else |s|;
    body := s[open + 1..bodyEnd];
  }

  /** `e` is the brace that closes the one at `open`. */
  ghost predicate Closes(s: string, open: nat, e: nat) {
    open < e < |s| && s[e] == '}' && StaysOpen(s, open + 1, e) && Net(s[open + 1..e]) == 0
  }

  /** The group opened at `open` is still open after the character at `p`. */
  ghost predicate OpenAt(s: string, open: nat, p: nat)
    requires open < p < |s|
  {
    StaysOpen(s, open + 1, p + 1)
  }

  /** The body is the text up to the closing brace, or to the end when there is none; and a position lies in
      it exactly when the group is still open there, at whatever depth of nesting. */
  lemma BodyIsUpToTheClose(s: string, open: nat)
    requires open < |s|
    ensures forall e: nat :: Closes(s, open, e) ==> BodyEnd(s, open) == e
    ensures (forall e: nat :: !Closes(s, open, e)) ==> BodyEnd(s, open) == |s|
    ensures forall p: nat | open < p < |s| :: p < BodyEnd(s, open) <==> OpenAt(s, open, p)
  {
    WalkFrom(s, open);
    var r := Walk(s, open + 1, 1);
    var end := BodyEnd(s, open);
    if end < |s| {
      NetNext(s, open + 1, end);
      assert Closes(s, open, end);
      assert Net(s[open + 1..end + 1]) == -1;
    }
    forall e: nat | Closes(s, open, e) ensures end == e {
      NetNext(s, open + 1, e);
      assert Net(s[open + 1..e + 1]) == -1;
    }
  }

  // ---------------------------------------------------------------- blanking test modules

  datatype Header = Header(start: nat, open: nat)

  predicate Fits(s: string, hs: seq<Header>) {
    forall i | 0 <= i < |hs| :: hs[i].start <= hs[i].open < |s|
  }

  function BlankRange(s: string, a: nat, b: nat): (r: string)
    ensures |r| == |s|
  {
    seq(|s|, i requires 0 <= i < |s| => if a <= i < b then Blanked(s[i]) else s[i])
  }

  /** The end of what is blanked for a header: all but the last character of the walk. */
  function BlankEnd(s: string, open: nat): nat
    requires open < |s|
  {
    var j := Walk(s, open + 1, 1).at;
    if open + 1 < j - 1 then j - 1 else open + 1
  }

  /** The headers from the first on, with everything before `lastEnd` done; `s` is the text that the walks
      read and `cur` the text as blanked so far. */
  function BlankFrom(s: string, cur: string, hs: seq<Header>, lastEnd: nat): (r: string)
    requires Fits(s, hs) && |cur| == |s|
    ensures |r| == |s|
    decreases |hs|
  {
    if hs == [] then cur
    else if hs[0].start < lastEnd then BlankFrom(s, cur, hs[1..], lastEnd)
    else BlankFrom(s, BlankRange(cur, hs[0].open + 1, BlankEnd(s, hs[0].open)), hs[1..], Walk(s, hs[0].open + 1, 1).at)
  }

  method BlankInPlace(out: array<char>, a: nat, b: nat)
    requires a <= b <= out.Length
    modifies out
    ensures out[..] == BlankRange(old(out[..]), a, b)
  {
    for k := a to b
      invariant out[..] == BlankRange(old(out[..]), a, k)
    {
      if out[k] != '\n' && out[k] != '\t' { out[k] := ' '; }
      assert out[..] == BlankRange(old(out[..]), a, k + 1);
    }
  }

  method BlankTestModules(s: string, hs: seq<Header>) returns (r: string)
    requires Fits(s, hs)
    ensures r == BlankFrom(s, s, hs, 0)
  {
    var out := new char[|s|](i requires 0 <= i < |s| => s[i]);
    var lastEnd := 0;
    assert out[..] == s;
    for h := 0 to |hs|
      invariant BlankFrom(s, s, hs, 0) == BlankFrom(s, out[..], hs[h..], lastEnd)
    {
      assert hs[h..][1..] == hs[h + 1..];
      if hs[h].start >= lastEnd {
        var openPos := hs[h].open;
        var walk := WalkToClose(s, openPos);
        var j := walk.at;
        BlankInPlace(out, openPos + 1, if openPos + 1 < j - 1 then j - 1 else openPos + 1);
        lastEnd := j;
      }
    }
    r := out[..];
  }

  /** A closed module is blanked up to its closing brace, and one that is never closed up to the last character of the
      text; and the walk goes on behind the brace, or at the end. */
  lemma ModuleIsUpToTheClose(s: string, open: nat)
    requires open < |s|
    ensures forall e: nat :: Closes(s, open, e) ==> BlankEnd(s, open) == e && Walk(s, open + 1, 1) == Stop(e + 1, 0)
    ensures (forall e: nat :: !Closes(s, open, e)) ==>
              BlankEnd(s, open) == (if open + 2 < |s| then |s| - 1 else open + 1) && Walk(s, open + 1, 1).at == |s|
  {
    BodyIsUpToTheClose(s, open);
    WalkFrom(s, open);
  }

  // ---------------------------------------------------------------- what blanking keeps

  /** The position lies inside a module that is blanked. */
  predicate InModule(s: string, hs: seq<Header>, lastEnd: nat, k: nat)
    requires Fits(s, hs)
    decreases |hs|
  {
    hs != [] &&
      if hs[0].start < lastEnd then InModule(s, hs[1..], lastEnd, k)
      else hs[0].open < k < BlankEnd(s, hs[0].open) || InModule(s, hs[1..], Walk(s, hs[0].open + 1, 1).at, k)
  }

  lemma {:induction false} BlankedWhere(s: string, cur: string, hs: seq<Header>, lastEnd: nat, k: nat)
    requires Fits(s, hs) && |cur| == |s| && k < |s|
    ensures BlankFrom(s, cur, hs, lastEnd)[k] == if InModule(s, hs, lastEnd, k) then Blanked(cur[k]) else cur[k]
    decreases |hs|
  {
    if hs != [] {
      if hs[0].start < lastEnd {
        BlankedWhere(s, cur, hs[1..], lastEnd, k);
      } else {
        var next := BlankRange(cur, hs[0].open + 1, BlankEnd(s, hs[0].open));
        BlankedWhere(s, next, hs[1..], Walk(s, hs[0].open + 1, 1).at, k);
      }
    }
  }

  /** Blanking keeps the length, every newline and tab, and every character outside the modules. */
  lemma BlankingKeeps(s: string, hs: seq<Header>, k: nat)
    requires Fits(s, hs) && k < |s|
    ensures var r := BlankFrom(s, s, hs, 0);
            && |r| == |s|
            && (r[k] == '\n' <==> s[k] == '\n')
            && (s[k] == '\t' ==> r[k] == '\t')
            && (!InModule(s, hs, 0, k) ==> r[k] == s[k])
            && (InModule(s, hs, 0, k) && s[k] != '\n' && s[k] != '\t' ==> r[k] == ' ')
  {
    BlankedWhere(s, s, hs, 0, k);
  }

  // ---------------------------------------------------------------- which modules are blanked

  predicate Inside(s: string, h: Header, k: nat)
    requires h.open < |s|
  {
    h.open < k < BlankEnd(s, h.open)
  }

  /** Headers as they follow one another in a file: each ends with its brace, and none straddles the end of an earlier
      module. */
  predicate InFileOrder(s: string, hs: seq<Header>) {
    && Fits(s, hs)
    && (forall i | 0 <= i < |hs| :: s[hs[i].open] == '{')
    && forall i, j | 0 <= i < j < |hs| ::
         hs[i].open < hs[j].start && (hs[j].start < Walk(s, hs[i].open + 1, 1).at ==>
             hs[j].open < Walk(s, hs[i].open + 1, 1).at)
  }

  lemma NetOfInner(s: string, from: nat, inner: nat, e: nat)
    requires from <= inner < e < |s| && s[inner] == '{' && StaysOpen(s, from, e) && Net(s[from..e + 1]) == -1
    ensures Net(s[inner + 1..e + 1]) < 0
  {
    NetNext(s, from, inner);
    assert s[from..e + 1] == s[from..inner + 1] + s[inner + 1..e + 1];
    NetConcat(s[from..inner + 1], s[inner + 1..e + 1]);
  }

  /** A module whose brace stands inside another lies inside it. */
  lemma ModulesNest(s: string, outer: nat, inner: nat, k: nat)
    requires outer < inner < |s| && s[inner] == '{' && inner < Walk(s, outer + 1, 1).at
    requires inner < k < BlankEnd(s, inner)
    ensures k < BlankEnd(s, outer)
  {
    WalkFrom(s, outer);
    WalkFrom(s, inner);
    var r := Walk(s, outer + 1, 1);
    if r.depth == 0 {
      NetNext(s, outer + 1, r.at - 1);
      if inner < r.at - 1 { NetOfInner(s, outer + 1, inner, r.at - 1); }
    }
  }

  /** The position lies inside one of the modules from a start on. */
  ghost predicate InsideFrom(s: string, hs: seq<Header>, from: nat, k: nat)
    requires Fits(s, hs)
  {
    exists i | 0 <= i < |hs| :: hs[i].start >= from && Inside(s, hs[i], k)
  }

  lemma InsideFromHead(s: string, hs: seq<Header>, from: nat, k: nat)
    requires Fits(s, hs) && hs != []
    ensures InsideFrom(s, hs, from, k) <==>
            (hs[0].start >= from && Inside(s, hs[0], k)) || InsideFrom(s, hs[1..], from, k)
  {
    if InsideFrom(s, hs[1..], from, k) {
      var i :| 0 <= i < |hs[1..]| && hs[1..][i].start >= from && Inside(s, hs[1..][i], k);
      assert hs[i + 1] == hs[1..][i];
    }
    if i :| 0 < i < |hs| && hs[i].start >= from && Inside(s, hs[i], k) {
      assert hs[1..][i - 1] == hs[i];
    }
  }

  /** Passing over the headers inside the first module leaves nothing out. */
  lemma NestedAddNothing(s: string, hs: seq<Header>, from: nat, end: nat, k: nat)
    requires InFileOrder(s, hs) && hs != [] && end == Walk(s, hs[0].open + 1, 1).at && from <= end
    ensures Inside(s, hs[0], k) || InsideFrom(s, hs[1..], from, k) <==>
            Inside(s, hs[0], k) || InsideFrom(s, hs[1..], end, k)
  {
    if InsideFrom(s, hs[1..], from, k) {
      var i :| 0 <= i < |hs[1..]| && hs[1..][i].start >= from && Inside(s, hs[1..][i], k);
      assert hs[i + 1] == hs[1..][i];
      if hs[i + 1].start < end { ModulesNest(s, hs[0].open, hs[i + 1].open, k); }
    }
  }

  lemma RestInFileOrder(s: string, hs: seq<Header>)
    requires InFileOrder(s, hs) && hs != []
    ensures InFileOrder(s, hs[1..])
  {
    assert forall i | 0 <= i < |hs[1..]| :: hs[1..][i] == hs[i + 1];
  }

  lemma {:induction false} BlankedFrom(s: string, hs: seq<Header>, lastEnd: nat, k: nat)
    requires InFileOrder(s, hs)
    ensures InModule(s, hs, lastEnd, k) <==> InsideFrom(s, hs, lastEnd, k)
    decreases |hs|
  {
    if hs != [] {
      var end := Walk(s, hs[0].open + 1, 1).at;
      RestInFileOrder(s, hs);
      InsideFromHead(s, hs, lastEnd, k);
      if hs[0].start < lastEnd {
        BlankedFrom(s, hs[1..], lastEnd, k);
      } else {
        BlankedFrom(s, hs[1..], end, k);
        NestedAddNothing(s, hs, lastEnd, end, k);
      }
    }
  }

  /** In a file, what is blanked is what lies inside any of the modules, those inside others included. */
  lemma EveryModuleIsBlanked(s: string, hs: seq<Header>, k: nat)
    requires InFileOrder(s, hs) && k < |s|
    ensures BlankFrom(s, s, hs, 0)[k] ==
            if exists i | 0 <= i < |hs| :: Inside(s, hs[i], k) then Blanked(s[k]) else s[k]
  {
    BlankedFrom(s, hs, 0, k);
    assert InsideFrom(s, hs, 0, k) <==> exists i | 0 <= i < |hs| :: Inside(s, hs[i], k);
    BlankedWhere(s, s, hs, 0, k);
  }

  lemma BlankingKeepsBreak(s: string, hs: seq<Header>, k: nat)
    requires Fits(s, hs) && k < |s|
    ensures BreaksAt(BlankFrom(s, s, hs, 0), k) <==> BreaksAt(s, k) && (InModule(s, hs, 0, k) ==> s[k] == '\n')
  {
    BlankedWhere(s, s, hs, 0, k);
    if k + 1 < |s| { BlankedWhere(s, s, hs, 0, k + 1); }
  }

  /** The line numbers of a file stay exactly when its only line breaks inside the modules are newlines. */
  lemma BlankingKeepsLines(s: string, hs: seq<Header>)
    requires Fits(s, hs)
    ensures var r := BlankFrom(s, s, hs, 0);
            && BreaksWithin(r, s)
            && (Breaks(r, |s|) == Breaks(s, |s|) <==>
                forall k | 0 <= k < |s| && BreaksAt(s, k) :: InModule(s, hs, 0, k) ==> s[k] == '\n')
  {
    var r := BlankFrom(s, s, hs, 0);
    forall k | 0 <= k < |s| ensures BreaksAt(r, k) <==> BreaksAt(s, k) && (InModule(s, hs, 0, k) ==> s[k] == '\n') {
      BlankingKeepsBreak(s, hs, k);
    }
    FewerBreaks(r, s, |s|);
  }

  lemma {:induction false} ModulesComeLater(s: string, hs: seq<Header>, lastEnd: nat, k: nat)
    requires Fits(s, hs) && k <= lastEnd
    ensures !InModule(s, hs, lastEnd, k)
    decreases |hs|
  {
    if hs != [] {
      if hs[0].start < lastEnd {
        ModulesComeLater(s, hs[1..], lastEnd, k);
      } else {
        ModulesComeLater(s, hs[1..], Walk(s, hs[0].open + 1, 1).at, k);
      }
    }
  }

  lemma {:induction false} WalkSkips(s: string, a: nat, b: nat, depth: nat)
    requires a <= b <= |s| && depth > 0 && forall k | a <= k < b :: s[k] != '{' && s[k] != '}'
    ensures Walk(s, a, depth) == Walk(s, b, depth)
    decreases b - a
  {
    if a < b { WalkSkips(s, a + 1, b, depth); }
  }

  /** Once a module's body is blank, the walk from its header stops where it stopped before. */
  lemma WalkAfterBlanking(s: string, r: string, open: nat)
    requires |r| == |s| && open < |s|
    requires forall k | open < k < BlankEnd(s, open) :: r[k] != '{' && r[k] != '}'
    requires forall k | BlankEnd(s, open) <= k < Walk(s, open + 1, 1).at :: r[k] == s[k]
    ensures Walk(r, open + 1, 1).at == Walk(s, open + 1, 1).at && BlankEnd(r, open) == BlankEnd(s, open)
  {
    WalkFrom(s, open);
    var j := Walk(s, open + 1, 1).at;
    if j > open + 1 {
      WalkSkips(r, open + 1, j - 1, 1);
      assert r[j - 1] == s[j - 1];
      var depth := if r[j - 1] == '{' then 2 else if r[j - 1] == '}' then 0 else 1;
      assert Walk(r, j - 1, 1) == Walk(r, j, depth);
    }
  }

  lemma {:induction false} BlankAgain(s: string, cur: string, hs: seq<Header>, lastEnd: nat)
    requires Fits(s, hs) && |cur| == |s| && forall k | lastEnd <= k < |s| :: cur[k] == s[k]
    ensures var r := BlankFrom(s, cur, hs, lastEnd); BlankFrom(r, r, hs, lastEnd) == r
    decreases |hs|
  {
    if hs != [] {
      var r := BlankFrom(s, cur, hs, lastEnd);
      if hs[0].start < lastEnd {
        BlankAgain(s, cur, hs[1..], lastEnd);
      } else {
        var open := hs[0].open;
        var j, next := Walk(s, open + 1, 1).at, BlankRange(cur, open + 1, BlankEnd(s, open));
        forall k | 0 <= k < j && k < |s| ensures r[k] == next[k] {
          ModulesComeLater(s, hs[1..], j, k);
          BlankedWhere(s, next, hs[1..], j, k);
        }
        WalkAfterBlanking(s, r, open);
        assert BlankRange(r, open + 1, BlankEnd(r, open)) == r;
        BlankAgain(s, next, hs[1..], j);
      }
    }
  }

  /** Blanking again with the same headers changes nothing. */
  lemma BlankingIsIdempotent(s: string, hs: seq<Header>)
    requires Fits(s, hs)
    ensures var r := BlankFrom(s, s, hs, 0); BlankFrom(r, r, hs, 0) == r
  {
    BlankAgain(s, s, hs, 0);
  }

  // ---------------------------------------------------------------- balance

  lemma {:induction false} NetOfBlank(s: string)
    ensures Net(BlankRange(s, 0, |s|)) == 0
  {
    if s != "" {
      assert BlankRange(s, 0, |s|)[..|s| - 1] == BlankRange(s[..|s| - 1], 0, |s| - 1);
      NetOfBlank(s[..|s| - 1]);
    }
  }

  lemma NetOfThree(x: string, y: string, z: string)
    ensures Net(x + y + z) == Net(x) + Net(y) + Net(z)
  {
    NetConcat(x + y, z);
    NetConcat(x, y);
  }

  lemma BlankRangeSplits(s: string, a: nat, b: nat)
    requires a <= b <= |s|
    ensures s == s[..a] + s[a..b] + s[b..]
    ensures BlankRange(s, a, b) == s[..a] + BlankRange(s[a..b], 0, b - a) + s[b..]
  {
  }

  lemma NetOfBlankRange(s: string, a: nat, b: nat)
    requires a <= b <= |s|
    ensures Net(BlankRange(s, a, b)) == Net(s) - Net(s[a..b])
  {
    NetOfBlank(s[a..b]);
    BlankRangeSplits(s, a, b);
    NetOfThree(s[..a], s[a..b], s[b..]);
    NetOfThree(s[..a], BlankRange(s[a..b], 0, b - a), s[b..]);
  }

  /** Every module that is blanked has as many closing as opening braces in its body. */
  predicate BodiesBalanced(s: string, hs: seq<Header>, lastEnd: nat)
    requires Fits(s, hs)
    decreases |hs|
  {
    hs == [] ||
      if hs[0].start < lastEnd then BodiesBalanced(s, hs[1..], lastEnd)
      else (
        && Net(s[hs[0].open + 1..BlankEnd(s, hs[0].open)]) == 0
        && BodiesBalanced(s, hs[1..], Walk(s, hs[0].open + 1, 1).at))
  }

  /** A module whose brace is closed has a balanced body; one that runs to the end of the text may have
      braces left open in it, never the reverse. */
  lemma BodyBalance(s: string, open: nat)
    requires open < |s|
    ensures Net(s[open + 1..BlankEnd(s, open)]) >= 0
    ensures Walk(s, open + 1, 1).depth == 0 ==> Net(s[open + 1..BlankEnd(s, open)]) == 0
  {
    WalkFrom(s, open);
    assert s[open + 1..open + 1] == "";
  }

  lemma {:induction false} BlankFromBalance(s: string, cur: string, hs: seq<Header>, lastEnd: nat)
    requires Fits(s, hs) && |cur| == |s| && forall k | lastEnd <= k < |s| :: cur[k] == s[k]
    ensures var r := BlankFrom(s, cur, hs, lastEnd);
            Net(r) <= Net(cur) && (Net(r) == Net(cur) <==> BodiesBalanced(s, hs, lastEnd))
    decreases |hs|
  {
    if hs != [] {
      if hs[0].start < lastEnd {
        BlankFromBalance(s, cur, hs[1..], lastEnd);
      } else {
        var a, b := hs[0].open + 1, BlankEnd(s, hs[0].open);
        NetOfBlankRange(cur, a, b);
        BodyBalance(s, hs[0].open);
        assert cur[a..b] == s[a..b];
        BlankFromBalance(s, BlankRange(cur, a, b), hs[1..], Walk(s, a, 1).at);
      }
    }
  }

  /** Blanking keeps the balance of braces exactly when every blanked body is balanced, as it is for every
      module that is closed. */
  lemma BlankingKeepsBalance(s: string, hs: seq<Header>)
    requires Fits(s, hs)
    ensures Net(BlankFrom(s, s, hs, 0)) == Net(s) <==> BodiesBalanced(s, hs, 0)
  {
    BlankFromBalance(s, s, hs, 0);
  }

  lemma {:induction false} ClosedModulesAreBalanced(s: string, hs: seq<Header>, lastEnd: nat)
    requires Fits(s, hs) && forall i | 0 <= i < |hs| :: Walk(s, hs[i].open + 1, 1).depth == 0
    ensures BodiesBalanced(s, hs, lastEnd)
    decreases |hs|
  {
    if hs != [] {
      BodyBalance(s, hs[0].open);
      ClosedModulesAreBalanced(s, hs[1..], if hs[0].start < lastEnd then lastEnd else Walk(s, hs[0].open + 1, 1).at);
    }
  }

  /** A module that is never closed and leaves a brace open before the last character loses balance. */
  lemma UnclosedModuleLosesBalance()
    ensures var s, hs := "{{ ", [Header(0, 0)]; Net(s) == 2 && Net(BlankFrom(s, s, hs, 0)) == 1
  {
    var s, hs := "{{ ", [Header(0, 0)];
    assert s[..2][..1][..0] == "" && s[..2][..1] == "{" && s[..2] == "{{";
    assert Net("") == 0 && Net("{") == 1 && Net("{{") == 2 && Net(s) == 2;
    assert Walk(s, 1, 1) == Walk(s, 2, 2) == Walk(s, 3, 2) == Stop(3, 2);
    NetOfBlankRange(s, 1, 2);
    assert s[1..2] == "{" && hs[1..] == [];
  }
}
