/** Where comments and raw strings open and close, in the characters of a text. */
module Tokens {
  import opened Texts

  /** What comes before is masked, and then the rest. */
  lemma Prepend(total: string, x: string, masked: string, y: string, z: string, xy: string)
    requires total == x + masked && masked == y + z && xy == x + y
    ensures total == xy + z
  {
  }

  predicate Starts(s: string, c: char, d: char) { |s| > 1 && s[0] == c && s[1] == d }

  predicate AreHashes(s: string) { forall i | 0 <= i < |s| :: s[i] == '#' }

  /** A raw string opens here: `r`, any number of hashes, a quote. */
  ghost predicate StartsRaw(s: string) { exists n: nat :: OpensWith(s, n) }

  predicate OpensWith(s: string, n: nat) {
    n + 1 < |s| && s[0] == 'r' && AreHashes(s[1..n + 1]) && s[n + 1] == '"'
  }

  function Marks(n: nat): string { seq(n, _ => '#') }

  lemma {:induction false} HashesAre(s: string, n: nat)
    requires n <= |s| && AreHashes(s[..n]) && (n == |s| || s[n] != '#')
    ensures Hashes(s) == n
  {
    if n > 0 {
      assert s[..n][0] == '#' && s[1..][..n - 1] == s[..n][1..];
      HashesAre(s[1..], n - 1);
    }
  }

  lemma RawStart(s: string)
    ensures StartsRaw(s) <==> OpensRaw(s)
  {
    if OpensRaw(s) {
      var n := Hashes(s[1..]);
      var marks := s[1..n + 1];
      forall i | 0 <= i < n ensures marks[i] == '#' { assert s[1..][i] == '#'; }
      assert OpensWith(s, n);
    }
    if StartsRaw(s) {
      var n: nat :| OpensWith(s, n);
      assert s[1..][..n] == s[1..n + 1];
      HashesAre(s[1..], n);
    }
  }

  lemma {:induction false} HashesEnd(s: string)
    ensures Hashes(s) == |s| || s[Hashes(s)] != '#'
  {
    if s != "" && s[0] == '#' { HashesEnd(s[1..]); }
  }

  lemma HashesThen(n: nat, t: string)
    requires t == "" || t[0] != '#'
    ensures Hashes(Marks(n) + t) == n && (Marks(n) + t)[n..] == t
  {
    assert (Marks(n) + t)[..n] == Marks(n);
    HashesAre(Marks(n) + t, n);
  }

  // ---------------------------------------------------------------- block comments

  /** What is left of a block comment, to the end that closes it: comments nest. */
  predicate Closes(s: string, depth: nat)
    decreases |s|
  {
    && |s| >= 2
    && if Starts(s, '/', '*') then Closes(s[2..], depth + 1)
       else if Starts(s, '*', '/') then if depth <= 1 then |s| == 2 else Closes(s[2..], depth - 1)
       else Closes(s[1..], depth)
  }

  /** What is left of a block comment that nothing closes. */
  predicate StaysOpen(s: string, depth: nat)
    decreases |s|
  {
    || s == ""
    || if Starts(s, '/', '*') then StaysOpen(s[2..], depth + 1)
       else if Starts(s, '*', '/') then depth > 1 && StaysOpen(s[2..], depth - 1)
       else StaysOpen(s[1..], depth)
  }

  /** The depth after the two characters at the front. */
  function DepthAfter(s: string, depth: nat): nat {
    if Starts(s, '/', '*') then depth + 1 else if Starts(s, '*', '/') && depth > 0 then depth - 1 else depth
  }
}
