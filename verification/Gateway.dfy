/** The two passes of the gateway scanner together: the text it searches, against the file whose lines it reports. */
module Gateway {
  import opened Json
  import opened LineBreaks
  import opened Stripper
  import opened Braces

  method Sanitize(text: string, hs: seq<Header>) returns (sanitized: string)
    requires Fits(Stripped(text, Code), hs)
    ensures var clean := Stripped(text, Code); sanitized == BlankFrom(clean, clean, hs, 0)
  {
    var stripped := StripCommentsAndStrings(text);
    sanitized := BlankTestModules(stripped, hs);
  }

  /** The line break at `i` of the file is there in what is searched; `clean` is the file stripped. */
  predicate Survives(text: string, clean: string, hs: seq<Header>, i: nat)
    requires |clean| == |text| && Fits(clean, hs) && i < |text|
  {
    Kept(text, i) && (InModule(clean, hs, 0, i) ==> text[i] == '\n')
  }

  lemma BreakStripped(text: string, clean: string, i: nat)
    requires clean == Stripped(text, Code) && i < |text|
    ensures BreaksAt(clean, i) <==> BreaksAt(text, i) && Kept(text, i)
    ensures BreaksAt(clean, i) ==> (clean[i] == '\n' <==> text[i] == '\n')
  {
    BreakStays(text, i);
    NewlinesStay(text, Code, i);
  }

  lemma BreaksCompose(text: string, clean: string, r: string, hs: seq<Header>, i: nat)
    requires |clean| == |text| == |r| && Fits(clean, hs) && i < |text|
    requires BreaksAt(r, i) <==> BreaksAt(clean, i) && (InModule(clean, hs, 0, i) ==> clean[i] == '\n')
    requires BreaksAt(clean, i) <==> BreaksAt(text, i) && Kept(text, i)
    requires BreaksAt(clean, i) ==> (clean[i] == '\n' <==> text[i] == '\n')
    ensures BreaksAt(r, i) <==> BreaksAt(text, i) && Survives(text, clean, hs, i)
  {
  }

  /** A place is reported on the line it is on, wherever it is, exactly when every line break of the file is in
      code outside the test modules, or a newline that is not the escaped character of a char literal. */
  lemma ReportedLinesAreRight(text: string, clean: string, hs: seq<Header>, r: string)
    requires clean == Stripped(text, Code) && Fits(clean, hs) && r == BlankFrom(clean, clean, hs, 0)
    ensures (forall n | 0 <= n <= |text| :: Breaks(r, n) == Breaks(text, n)) <==>
            (forall i | 0 <= i < |text| && BreaksAt(text, i) :: Survives(text, clean, hs, i))
  {
    forall i | 0 <= i < |text| ensures BreaksAt(r, i) <==> BreaksAt(text, i) && Survives(text, clean, hs, i) {
      BlankingKeepsBreak(clean, hs, i);
      BreakStripped(text, clean, i);
      BreaksCompose(text, clean, r, hs, i);
    }
    SameLineNumbers(r, text);
  }

  /** A line break before a grouped import that counts as a newline in what is searched. */
  predicate Counted(text: string, i: nat)
    requires i < |text|
  {
    text[i] == '\n' && ModeAt(text, Code, i) != Some(InChar(true))
  }

  /** A grouped import is numbered by the newlines before it, and quoted as the line of that number of the file: the
      right line exactly when every line break before it is a newline that is not the escaped character of a char
      literal. */
  lemma QuotedLineIsRight(text: string, clean: string, hs: seq<Header>, r: string, n: nat)
    requires clean == Stripped(text, Code) && Fits(clean, hs) && r == BlankFrom(clean, clean, hs, 0) && n <= |text|
    ensures Newlines(r, n) == Breaks(text, n) <==> forall i | 0 <= i < n && BreaksAt(text, i) :: Counted(text, i)
  {
    forall i | 0 <= i < |text| ensures r[i] == '\n' <==> Counted(text, i) {
      BlankingKeeps(clean, hs, i);
      NewlinesStay(text, Code, i);
    }
    NewlinesAreBreaks(r, text, n);
  }
}
