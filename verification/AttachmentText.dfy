/** Finding the attachment block in a text whose own content may hold anything, even another block. */
module AttachmentText {
  import opened Json
  import opened Attachments

  const TAG := "<attachments>"

  /** The greatest index up to `n` at which `tag` stands. */
  function LastAt(s: string, tag: string, n: nat): (r: Option<nat>)
    requires n <= |s|
    ensures r.Some? ==> r.value <= n && tag <= s[r.value..]
  {
    if tag <= s[n..] then Some(n) else if n == 0 then None else LastAt(s, tag, n - 1)
  }

  /** The content before the last block, and the attachments of that block. */
  function ReadText(text: string): Option<(string, seq<View>)> {
    match LastAt(text, TAG, |text|)
    case None => None
    case Some(i) =>
      if i < 2 || text[i - 2..i] != "\n\n" then None
      else match ReadRest(text[i + |TAG|..])
        case None => None
        case Some(views) => Some((text[..i - 2], views))
  }

  // ---------------------------------------------------------------- no other tag opens a block

  /** Every opening bracket is that of a closing tag, or of one whose name is as long as `attachment`. */
  predicate Marked(s: string) { forall i: nat | i < |s| :: MarkedAt(s, i) }

  predicate MarkedAt(s: string, i: nat)
    requires i < |s|
  {
    s[i] == '<' ==> (i + 1 < |s| && s[i + 1] == '/') || (i + 11 < |s| && s[i + 11] == ' ')
  }

  lemma MarkedConcat(a: string, b: string)
    requires Marked(a) && Marked(b)
    ensures Marked(a + b)
  {
    var s := a + b;
    forall i: nat | i < |s| ensures MarkedAt(s, i) {
      if i < |a| { assert MarkedAt(a, i); } else { assert MarkedAt(b, i - |a|); }
    }
  }

  lemma PlainIsMarked(s: string)
    requires '<' !in s
    ensures Marked(s)
  {
  }

  lemma TagIsMarked(tag: string, more: string)
    requires |tag| == 11 && tag[0] == '<' && (forall i | 0 < i < |tag| :: tag[i] != '<')
    requires more != "" && more[0] == ' ' && '<' !in more
    ensures Marked(tag + more)
  {
  }

  lemma ClosingIsMarked(tag: string)
    requires |tag| > 2 && tag[0] != '<' && tag[1] == '<' && tag[2] == '/' && forall i | 2 < i < |tag| :: tag[i] != '<'
    ensures Marked(tag)
  {
  }

  lemma {:induction false} NoBracketInDigits(n: nat)
    ensures '<' !in Digits(n)
  {
    DigitsAreDigits(n);
  }

  lemma AttrIsPlain(name: string, value: string)
    requires '<' !in name && '<' !in value
    ensures '<' !in Attr(name, value) && Attr(name, value)[0] == ' '
  {
  }

  lemma LabelsArePlain(tenths: nat -> nat, n: nat)
    ensures '<' !in Decimal(n) && '<' !in Decimal(n) + "s" && '<' !in FormatSize(tenths, n)
  {
    NoBracketInDigits(n);
    NoBracketInDigits(n / 1024);
    NoBracketInDigits(tenths(n) / 10);
    NoBracketInDigits(tenths(n) % 10);
  }

  lemma EscapedAttrIsPlain(s: string)
    ensures '<' !in EscapeAttr(s)
  {
    EscapesAreCharwise(s);
    EntitiesAreClean(s, true);
  }

  lemma HeadIsMarked(index: nat, a: Attachment)
    ensures Marked(Head(index, a))
  {
    LabelsArePlain(n => n, index);
    EscapedAttrIsPlain(Filename(a));
    EscapedAttrIsPlain(a.mime);
    var i, t := Attr("index", Decimal(index)), Attr("type", KindName(a.kind));
    var f, m := Attr("filename", EscapeAttr(Filename(a))), Attr("mime", EscapeAttr(a.mime));
    AttrIsPlain("index", Decimal(index));
    AttrIsPlain("type", KindName(a.kind));
    AttrIsPlain("filename", EscapeAttr(Filename(a)));
    AttrIsPlain("mime", EscapeAttr(a.mime));
    TagIsMarked("<attachment", i);
    PlainIsMarked(t);
    PlainIsMarked(f);
    PlainIsMarked(m);
    MarkedConcat("<attachment" + i, t);
    MarkedConcat("<attachment" + i + t, f);
    MarkedConcat("<attachment" + i + t + f, m);
  }

  lemma OptAttrIsMarked(name: string, value: Option<string>)
    requires '<' !in name && (value.Some? ==> '<' !in value.value)
    ensures Marked(OptAttr(name, value))
  {
    if value.Some? { AttrIsPlain(name, value.value); }
  }

  lemma OptionsAreMarked(tenths: nat -> nat, a: Attachment)
    ensures Marked(Options(tenths, a))
  {
    if a.localPath.Some? { EscapedAttrIsPlain(a.localPath.value); }
    if a.durationSecs.Some? { LabelsArePlain(tenths, a.durationSecs.value); }
    if a.sizeBytes.Some? { LabelsArePlain(tenths, a.sizeBytes.value); }
    var p, d, s := OptAttr("project_path", PathAttr(a)), OptAttr("duration", Duration(a)),
        OptAttr("size", Size(tenths, a));
    OptAttrIsMarked("project_path", PathAttr(a));
    OptAttrIsMarked("duration", Duration(a));
    OptAttrIsMarked("size", Size(tenths, a));
    MarkedConcat(p, d);
    MarkedConcat(p + d, s);
  }

  lemma BodyIsMarked(w: Wording, a: Attachment)
    requires w.Plain()
    ensures Marked(Body(w, a))
  {
    var text := FormatBody(a.localPath, EscapedContent(w, a));
    BodyIsClean(w, a);
    PlainIsMarked(">\n" + text);
    ClosingIsMarked("\n</attachment>");
    MarkedConcat(">\n" + text, "\n</attachment>");
  }

  lemma {:induction false} RestIsMarked(tenths: nat -> nat, w: Wording, index: nat, atts: seq<Attachment>)
    requires w.Plain()
    ensures Marked(Rest(tenths, w, index, atts))
    decreases |atts|
  {
    if atts == [] {
      ClosingIsMarked("\n</attachments>");
    } else {
      var a := atts[0];
      var h, o, b := Head(index, a), Options(tenths, a), Body(w, a);
      HeadIsMarked(index, a);
      OptionsAreMarked(tenths, a);
      BodyIsMarked(w, a);
      RestIsMarked(tenths, w, index + 1, atts[1..]);
      MarkedConcat(h, o);
      MarkedConcat(h + o, b);
      PlainIsMarked("\n");
      MarkedConcat("\n", h + o + b);
      MarkedConcat("\n" + (h + o + b), Rest(tenths, w, index + 1, atts[1..]));
    }
  }

  // ---------------------------------------------------------------- the last block is the one appended

  /** What makes the tag stand nowhere in marked text, nor in itself but at its start. */
  predicate Distinct(tag: string) {
    |tag| == 13 && tag[0] == '<' && tag[1] != '/' && tag[11] != ' ' && forall i | 0 < i < |tag| :: tag[i] != '<'
  }

  lemma NotLater(before: string, tag: string, rest: string, j: nat)
    requires Distinct(tag) && Marked(rest) && |before| < j <= |before + tag + rest|
    ensures !(tag <= (before + tag + rest)[j..])
  {
    var s := before + tag + rest;
    var t := s[j..];
    if |t| >= |tag| {
      if j < |before| + |tag| {
        assert t[0] == tag[j - |before|];
      } else {
        var k := j - |before| - |tag|;
        assert MarkedAt(rest, k) && t[0] == rest[k] && t[1] == rest[k + 1] && t[11] == rest[k + 11];
      }
    }
  }

  lemma {:induction false} LastIsAppended(before: string, tag: string, rest: string, n: nat)
    requires Distinct(tag) && Marked(rest) && |before| <= n <= |before + tag + rest|
    ensures LastAt(before + tag + rest, tag, n) == Some(|before|)
  {
    var s := before + tag + rest;
    if n == |before| {
      assert s[n..] == tag + rest;
    } else {
      NotLater(before, tag, rest, n);
      LastIsAppended(before, tag, rest, n - 1);
    }
  }

  lemma Opened(content: string, rest: string)
    ensures content + OPEN + rest == (content + "\n\n") + TAG + rest
  {
    assert OPEN == "\n\n" + TAG;
  }

  lemma Parts(content: string, before: string, tag: string, rest: string, text: string)
    requires before == content + "\n\n" && text == before + tag + rest
    ensures text[|before| - 2..|before|] == "\n\n" && text[..|before| - 2] == content
        && text[|before| + |tag|..] == rest
  {
  }

  lemma ReadAppended(text: string, content: string, rest: string, i: nat)
    requires LastAt(text, TAG, |text|) == Some(i) && i >= 2 && text[i - 2..i] == "\n\n"
    requires text[..i - 2] == content && i + |TAG| <= |text| && text[i + |TAG|..] == rest
    ensures ReadText(text) == match ReadRest(rest) case None => None case Some(views) => Some((content, views))
  {
  }

  lemma AppendedText(tenths: nat -> nat, w: Wording, content: string, atts: seq<Attachment>, text: string)
    requires w.Plain() && text == (content + "\n\n") + TAG + Rest(tenths, w, 1, atts)
    ensures ReadText(text) ==
            match ReadRest(Rest(tenths, w, 1, atts)) case None => None case Some(views) => Some((content, views))
  {
    RestIsMarked(tenths, w, 1, atts);
    MarkedText(content, Rest(tenths, w, 1, atts), text);
  }

  lemma MarkedText(content: string, rest: string, text: string)
    requires Marked(rest) && text == (content + "\n\n") + TAG + rest
    ensures ReadText(text) == match ReadRest(rest) case None => None case Some(views) => Some((content, views))
  {
    var before := content + "\n\n";
    LastIsAppended(before, TAG, rest, |text|);
    Parts(content, before, TAG, rest, text);
    ReadAppended(text, content, rest, |before|);
  }

  /** Whatever the content before it, a block in it included, a reader recovers the content and all attachments from
      the augmented text. */
  lemma AugmentedReadsBack(tenths: nat -> nat, w: Wording, content: string, atts: seq<Attachment>)
    requires w.Plain()
    ensures ReadText(content + OPEN + Rest(tenths, w, 1, atts)) == Some((content, Views(tenths, w, 1, atts)))
  {
    Opened(content, Rest(tenths, w, 1, atts));
    AppendedText(tenths, w, content, atts, content + OPEN + Rest(tenths, w, 1, atts));
    BlockReadsBack(tenths, w, 1, atts);
  }
}
