/** What several modules need of strings: replacing a character, and the lexical pieces both scanners look for. */
module Texts {

  /** `str::replace` of one character. */
  function Replace(s: string, c: char, sub: string): string {
    if s == "" then "" else (if s[0] == c then sub else [s[0]]) + Replace(s[1..], c, sub)
  }

  lemma {:induction false} ReplaceConcat(a: string, b: string, c: char, sub: string)
    ensures Replace(a + b, c, sub) == Replace(a, c, sub) + Replace(b, c, sub)
  {
    if a == "" {
      assert a + b == b;
    } else {
      assert (a + b)[1..] == a[1..] + b;
      ReplaceConcat(a[1..], b, c, sub);
    }
  }

  /** A string without the character stays as it is. */
  lemma {:induction false} ReplaceAbsent(s: string, c: char, sub: string)
    requires c !in s
    ensures Replace(s, c, sub) == s
  {
    if s != "" { ReplaceAbsent(s[1..], c, sub); }
  }

  lemma Regroup(x: string, y: string, z: string)
    ensures x + (y + z) == (x + y) + z
  {
  }

  predicate OneLine(s: string) { '\n' !in s }

  // ---------------------------------------------------------------- for the scanners

  /** The length of the run of hashes at the front. */
  function Hashes(s: string): (n: nat)
    ensures n <= |s| && forall k | 0 <= k < n :: s[k] == '#'
  {
    if s != "" && s[0] == '#' then 1 + Hashes(s[1..]) else 0
  }

  predicate StartsWith(s: string, c: char, d: char) { |s| > 1 && s[0] == c && s[1] == d }

  /** `r`, hashes, quote. */
  predicate OpensRaw(s: string) {
    s != "" && s[0] == 'r' && 1 + Hashes(s[1..]) < |s| && s[1 + Hashes(s[1..])] == '"'
  }

  method EndOfHashes(line: string, i: nat) returns (j: nat)
    requires i <= |line|
    ensures j == i + Hashes(line[i..])
  {
    j := i;
    while j < |line| && line[j] == '#'
      invariant i <= j <= |line| && i + Hashes(line[i..]) == j + Hashes(line[j..])
    {
      assert line[j..][1..] == line[j + 1..];
      j := j + 1;
    }
  }

  /** A character blanked so that neither a line nor a tab stop moves. */
  function Blanked(c: char): char { if c == '\n' || c == '\t' then c else ' ' }
}
