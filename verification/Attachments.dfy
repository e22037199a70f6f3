/** The attachment block appended to a user message, and a reader that recovers what it says. */
module Attachments {
  import opened Json
  import opened Texts

  datatype Kind = Audio | Image | Document

  datatype Attachment = Attachment(
    kind: Kind,
    mime: string,
    filename: Option<string>,
    sizeBytes: Option<nat>,
    durationSecs: Option<nat>,
    extractedText: Option<string>,
    localPath: Option<string>,
    data: seq<bv8>)

  // ---------------------------------------------------------------- escaping

  function EscapeAttr(s: string): string {
    Replace(Replace(Replace(Replace(s, '&', "&amp;"), '"', "&quot;"), '<', "&lt;"), '>', "&gt;")
  }

  function EscapeText(s: string): string {
    Replace(Replace(Replace(s, '&', "&amp;"), '<', "&lt;"), '>', "&gt;")
  }

  function Entity(c: char, quotes: bool): string {
    if c == '&' then "&amp;"
    else if c == '<' then "&lt;"
    else if c == '>' then "&gt;"
    else if c == '"' && quotes then "&quot;"
    else [c]
  }

  function Entities(s: string, quotes: bool): string {
    if s == "" then "" else Entity(s[0], quotes) + Entities(s[1..], quotes)
  }

  lemma ReplaceOne(c: char, d: char, sub: string)
    ensures Replace([c], d, sub) == if c == d then sub else [c]
  {
    assert [c][1..] == "" && Replace("", d, sub) == "";
    assert sub + "" == sub && [c] + "" == [c];
  }

  /** The last two replacements leave a string without angle brackets as it is. */
  lemma NoBrackets(s: string)
    requires '<' !in s && '>' !in s
    ensures Replace(Replace(s, '<', "&lt;"), '>', "&gt;") == s
  {
    ReplaceAbsent(s, '<', "&lt;");
    ReplaceAbsent(s, '>', "&gt;");
  }

  lemma EscapeAttrChar(c: char)
    ensures EscapeAttr([c]) == Entity(c, true)
  {
    ReplaceOne(c, '&', "&amp;");
    if c == '&' {
      ReplaceAbsent("&amp;", '"', "&quot;");
      NoBrackets("&amp;");
    } else {
      ReplaceOne(c, '"', "&quot;");
      if c == '"' {
        NoBrackets("&quot;");
      } else {
        EscapeTextChar(c);
      }
    }
  }

  lemma EscapeTextChar(c: char)
    ensures EscapeText([c]) == Entity(c, false)
  {
    ReplaceOne(c, '&', "&amp;");
    if c == '&' {
      ReplaceAbsent("&amp;", '<', "&lt;");
      ReplaceAbsent("&amp;", '>', "&gt;");
      return;
    }
    ReplaceOne(c, '<', "&lt;");
    if c == '<' { ReplaceAbsent("&lt;", '>', "&gt;"); } else { ReplaceOne(c, '>', "&gt;"); }
  }

  lemma EscapeConcat(a: string, b: string)
    ensures EscapeAttr(a + b) == EscapeAttr(a) + EscapeAttr(b)
    ensures EscapeText(a + b) == EscapeText(a) + EscapeText(b)
  {
    var a1, b1 := Replace(a, '&', "&amp;"), Replace(b, '&', "&amp;");
    ReplaceConcat(a, b, '&', "&amp;");
    var a2, b2 := Replace(a1, '"', "&quot;"), Replace(b1, '"', "&quot;");
    ReplaceConcat(a1, b1, '"', "&quot;");
    ReplaceConcat(a2, b2, '<', "&lt;");
    ReplaceConcat(Replace(a2, '<', "&lt;"), Replace(b2, '<', "&lt;"), '>', "&gt;");
    ReplaceConcat(a1, b1, '<', "&lt;");
    ReplaceConcat(Replace(a1, '<', "&lt;"), Replace(b1, '<', "&lt;"), '>', "&gt;");
  }

  /** The chained replacements are one substitution, character by character. */
  lemma {:induction false} EscapesAreCharwise(s: string)
    ensures EscapeAttr(s) == Entities(s, true) && EscapeText(s) == Entities(s, false)
  {
    if s != "" {
      EscapesAreCharwise(s[1..]);
      EscapeAttrChar(s[0]);
      EscapeTextChar(s[0]);
      EscapeConcat([s[0]], s[1..]);
      assert [s[0]] + s[1..] == s;
    }
  }

  /** A reader of the four entities; anything else stands for itself. */
  function Unescape(s: string): string {
    if s == "" then ""
    else if "&amp;" <= s then "&" + Unescape(s[5..])
    else if "&quot;" <= s then "\"" + Unescape(s[6..])
    else if "&lt;" <= s then "<" + Unescape(s[4..])
    else if "&gt;" <= s then ">" + Unescape(s[4..])
    else [s[0]] + Unescape(s[1..])
  }

  lemma UnescapeEntity(c: char, quotes: bool, rest: string)
    ensures Unescape(Entity(c, quotes) + rest) == [c] + Unescape(rest)
  {
    var s := Entity(c, quotes) + rest;
    assert s[|Entity(c, quotes)|..] == rest && Entity(c, quotes) <= s;
    match Entity(c, quotes)[0]
    case '&' => UnescapeNamed(s);
    case _ => assert s[0] == c;
  }

  lemma UnescapeNamed(s: string)
    ensures "&amp;" <= s ==> Unescape(s) == "&" + Unescape(s[5..])
    ensures "&quot;" <= s ==> Unescape(s) == "\"" + Unescape(s[6..])
    ensures "&lt;" <= s ==> Unescape(s) == "<" + Unescape(s[4..])
    ensures "&gt;" <= s ==> Unescape(s) == ">" + Unescape(s[4..])
  {
    assert "&amp;" <= s ==> s[1] == 'a';
    assert "&quot;" <= s ==> s[1] == 'q';
    assert "&lt;" <= s ==> s[1] == 'l';
    assert "&gt;" <= s ==> s[1] == 'g';
  }

  lemma {:induction false} UnescapeInverts(s: string, quotes: bool, rest: string)
    ensures Unescape(Entities(s, quotes) + rest) == s + Unescape(rest)
  {
    if s == "" {
      assert Entities(s, quotes) + rest == rest;
    } else {
      var more := Entities(s[1..], quotes);
      UnescapeInverts(s[1..], quotes, rest);
      UnescapeEntity(s[0], quotes, more + rest);
      Regroup(Entity(s[0], quotes), more, rest);
      Regroup([s[0]], s[1..], Unescape(rest));
      assert [s[0]] + s[1..] == s;
    }
  }

  /** Each escape is undone by the reader, and leaves no character that ends a value or a body. */
  lemma EscapesAreUndone(s: string)
    ensures Unescape(EscapeAttr(s)) == s && Unescape(EscapeText(s)) == s
    ensures '"' !in EscapeAttr(s) && '<' !in EscapeText(s)
  {
    EscapesAreCharwise(s);
    UnescapeInverts(s, true, "");
    UnescapeInverts(s, false, "");
    assert Entities(s, true) + "" == Entities(s, true) && Entities(s, false) + "" == Entities(s, false)
        && Unescape("") == "";
    EntitiesAreClean(s, true);
    EntitiesAreClean(s, false);
  }

  lemma {:induction false} EntitiesAreClean(s: string, quotes: bool)
    ensures '<' !in Entities(s, quotes) && (quotes ==> '"' !in Entities(s, quotes))
  {
    if s != "" {
      EntitiesAreClean(s[1..], quotes);
      assert '<' !in Entity(s[0], quotes) && (quotes ==> '"' !in Entity(s[0], quotes));
    }
  }

  // ---------------------------------------------------------------- formatting

  /** The fixed sentences of the templates. */
  datatype Wording = Wording(imageSeen: string, imageOnDisk: string, imageGone: string, documentGone: string,
      audioGone: string)
  {
    ghost predicate Plain() {
      PlainText(imageSeen) && PlainText(imageOnDisk) && PlainText(imageGone) && PlainText(documentGone)
          && PlainText(audioGone)
    }
  }

  predicate PlainText(s: string) { forall i | 0 <= i < |s| :: s[i] != '&' && s[i] != '<' }

  /** `format_size`; the rounding of megabytes to tenths is a parameter. */
  function FormatSize(tenths: nat -> nat, bytes: nat): string {
    if bytes < 1024 then Decimal(bytes) + "B"
    else if bytes < 1024 * 1024 then Decimal(bytes / 1024) + "KB"
    else Decimal(tenths(bytes) / 10) + "." + Decimal(tenths(bytes) % 10) + "MB"
  }

  function Attr(name: string, value: string): string { " " + name + "=\"" + value + "\"" }

  function OptAttr(name: string, value: Option<string>): string {
    if value.Some? then Attr(name, value.value) else ""
  }

  function KindName(k: Kind): string {
    match k case Audio => "audio" case Image => "image" case Document => "document"
  }

  /** What the body says, before escaping. */
  function Content(w: Wording, a: Attachment): string {
    match a.kind
    case Audio => if a.extractedText.Some? then "Transcript: " + a.extractedText.value else w.audioGone
    case Image => if a.data != [] then w.imageSeen else if a.localPath.Some? then w.imageOnDisk else w.imageGone
    case Document => if a.extractedText.Some? then a.extractedText.value else w.documentGone
  }

  function EscapedContent(w: Wording, a: Attachment): string {
    match a.kind
    case Audio => if a.extractedText.Some? then "Transcript: " + EscapeText(a.extractedText.value) else w.audioGone
    case Image => if a.data != [] then w.imageSeen else if a.localPath.Some? then w.imageOnDisk else w.imageGone
    case Document => if a.extractedText.Some? then EscapeText(a.extractedText.value) else w.documentGone
  }

  const SAVED := "Saved to project file: "

  function FormatBody(localPath: Option<string>, content: string): string {
    if localPath.Some? then SAVED + EscapeText(localPath.value) + "\n" + content else content
  }

  function MapSome<T, U>(f: T -> U, o: Option<T>): Option<U> {
    match o case None => None case Some(v) => Some(f(v))
  }

  function Duration(a: Attachment): Option<string> {
    if a.kind.Audio? && a.durationSecs.Some? then Some(Decimal(a.durationSecs.value) + "s") else None
  }

  function Size(tenths: nat -> nat, a: Attachment): Option<string> {
    if a.sizeBytes.Some? then Some(FormatSize(tenths, a.sizeBytes.value)) else None
  }

  function Filename(a: Attachment): string { if a.filename.Some? then a.filename.value else "unknown" }

  function PathAttr(a: Attachment): Option<string> {
    if a.localPath.Some? then Some(EscapeAttr(a.localPath.value)) else None
  }

  function Head(index: nat, a: Attachment): string {
    "<attachment" + Attr("index", Decimal(index)) + Attr("type", KindName(a.kind))
    + Attr("filename", EscapeAttr(Filename(a))) + Attr("mime", EscapeAttr(a.mime))
  }

  function Options(tenths: nat -> nat, a: Attachment): string {
    OptAttr("project_path", PathAttr(a)) + OptAttr("duration", Duration(a)) + OptAttr("size", Size(tenths, a))
  }

  function Body(w: Wording, a: Attachment): string {
    ">\n" + FormatBody(a.localPath, EscapedContent(w, a)) + "\n</attachment>"
  }

  function FormatAttachment(tenths: nat -> nat, w: Wording, index: nat, a: Attachment): string {
    Head(index, a) + Options(tenths, a) + Body(w, a)
  }

  /** The attachments from number `index` on, each on a new line, and the end of the block. */
  function Rest(tenths: nat -> nat, w: Wording, index: nat, atts: seq<Attachment>): string
    decreases |atts|
  {
    if atts == [] then "\n</attachments>"
    else "\n" + FormatAttachment(tenths, w, index, atts[0]) + Rest(tenths, w, index + 1, atts[1..])
  }

  const OPEN := "\n\n<attachments>"

  datatype ImagePart = ImagePart(url: string, detail: string)

  datatype Augmented = Augmented(text: string, imageParts: seq<ImagePart>)

  function IsVisible(a: Attachment): bool { a.kind.Image? && a.data != [] }

  function ImageParts(base64: seq<bv8> -> string, atts: seq<Attachment>): seq<ImagePart> {
    if atts == [] then []
    else
      var a := atts[|atts| - 1];
      ImageParts(base64, atts[..|atts| - 1])
      + if IsVisible(a) then [ImagePart("data:" + a.mime + ";base64," + base64(a.data), "auto")] else []
  }

  lemma OneMoreText(tenths: nat -> nat, w: Wording, text: string, atts: seq<Attachment>, i: nat)
    requires i < |atts|
    ensures text + Rest(tenths, w, i + 1, atts[i..]) ==
            (text + ("\n" + FormatAttachment(tenths, w, i + 1, atts[i]))) + Rest(tenths, w, i + 2, atts[i + 1..])
  {
    var one, rest := "\n" + FormatAttachment(tenths, w, i + 1, atts[i]), Rest(tenths, w, i + 2, atts[i + 1..]);
    assert atts[i..][1..] == atts[i + 1..] && atts[i..][0] == atts[i];
    assert Rest(tenths, w, i + 1, atts[i..]) == one + rest;
    Regroup(text, one, rest);
  }

  lemma OneMorePart(base64: seq<bv8> -> string, atts: seq<Attachment>, i: nat)
    requires i < |atts|
    ensures ImageParts(base64, atts[..i + 1]) ==
            ImageParts(base64, atts[..i]) + if IsVisible(atts[i]) then
              [ImagePart("data:" + atts[i].mime + ";base64," + base64(atts[i].data), "auto")] else []
  {
    assert atts[..i + 1][..i] == atts[..i];
  }

  method AugmentWithAttachments(base64: seq<bv8> -> string, tenths: nat -> nat, w: Wording, content: string,
      atts: seq<Attachment>)
    returns (r: Option<Augmented>)
    ensures r.None? <==> atts == []
    ensures r.Some? ==> r.value.text == content + OPEN + Rest(tenths, w, 1, atts)
    ensures r.Some? ==> r.value.imageParts == ImageParts(base64, atts)
  {
    if atts == [] { return None; }
    var text := content + OPEN;
    var parts: seq<ImagePart> := [];
    for i := 0 to |atts|
      invariant text + Rest(tenths, w, i + 1, atts[i..]) == content + OPEN + Rest(tenths, w, 1, atts)
      invariant parts == ImageParts(base64, atts[..i])
    {
      var att := atts[i];
      OneMoreText(tenths, w, text, atts, i);
      OneMorePart(base64, atts, i);
      text := text + ("\n" + FormatAttachment(tenths, w, i + 1, att));
      if IsVisible(att) {
        parts := parts + [ImagePart("data:" + att.mime + ";base64," + base64(att.data), "auto")];
      }
    }
    assert atts[..|atts|] == atts;
    r := Some(Augmented(text + "\n</attachments>", parts));
  }

  // ---------------------------------------------------------------- reading the block

  datatype Cut = NotFound | Cut(before: string, after: string)

  /** The text before the first `c`, and the text after it. */
  function Until(s: string, c: char): Cut {
    if s == "" then NotFound
    else if s[0] == c then Cut("", s[1..])
    else match Until(s[1..], c)
      case NotFound => NotFound
      case Cut(before, after) => Cut([s[0]] + before, after)
  }

  function Drop(s: string, prefix: string): Option<string> {
    if prefix <= s then Some(s[|prefix|..]) else None
  }

  function Opening(name: string): string { " " + name + "=\"" }

  /** An attribute of the given name: its value, and what follows. */
  function ReadAttr(s: string, name: string): Cut {
    match Drop(s, Opening(name))
    case None => NotFound
    case Some(rest) => Until(rest, '"')
  }

  datatype Optional = Optional(value: Option<string>, rest: string)

  function ReadOptAttr(s: string, name: string): Optional {
    match ReadAttr(s, name)
    case NotFound => Optional(None, s)
    case Cut(v, rest) => Optional(Some(v), rest)
  }

  /** What a reader learns of one attachment. */
  datatype View = View(index: string, kind: string, filename: string, mime: string, path: Option<string>,
                       duration: Option<string>, size: Option<string>, body: string)

  datatype Parsed = Malformed | Parsed(view: View, rest: string)

  function ReadAttachment(s: string): Parsed {
    match Drop(s, "<attachment")
    case None => Malformed
    case Some(s) => match ReadAttr(s, "index")
      case NotFound => Malformed
      case Cut(index, s) => match ReadAttr(s, "type")
        case NotFound => Malformed
        case Cut(kind, s) => match ReadAttr(s, "filename")
          case NotFound => Malformed
          case Cut(filename, s) => match ReadAttr(s, "mime")
            case NotFound => Malformed
            case Cut(mime, s) => ReadOptions(s, View(index, kind, Unescape(filename), Unescape(mime), None, None,
                None, ""))
  }

  function ReadOptions(s: string, v: View): Parsed {
    var path := ReadOptAttr(s, "project_path");
    var duration := ReadOptAttr(path.rest, "duration");
    var size := ReadOptAttr(duration.rest, "size");
    ReadBody(size.rest, v.(path := MapSome(Unescape, path.value), duration := duration.value, size := size.value))
  }

  function ReadBody(s: string, v: View): Parsed {
    match Drop(s, ">\n")
    case None => Malformed
    case Some(s) => match Until(s, '<')
      case NotFound => Malformed
      case Cut(body, s) => match Drop(s, "/attachment>")
        case None => Malformed
        case Some(rest) =>
          if body != "" && body[|body| - 1] == '\n' then Parsed(v.(body := Unescape(body[..|body| - 1])), rest)
              else Malformed
  }

  function ReadRest(s: string): Option<seq<View>>
    decreases |s|
  {
    if s == "\n</attachments>" then Some([])
    else match Drop(s, "\n")
      case None => None
      case Some(s') => match ReadAttachment(s')
        case Malformed => None
        case Parsed(v, rest) =>
          if |rest| < |s| then
            match ReadRest(rest)
            case None => None
            case Some(vs) => Some([v] + vs)
          else None
  }

  /** What there is to learn of one attachment. */
  function ViewOf(tenths: nat -> nat, w: Wording, index: nat, a: Attachment): View {
    View(Decimal(index), KindName(a.kind), Filename(a), a.mime, a.localPath, Duration(a), Size(tenths, a),
         BodyText(w, a))
  }

  function Views(tenths: nat -> nat, w: Wording, index: nat, atts: seq<Attachment>): seq<View>
    decreases |atts|
  {
    if atts == [] then [] else [ViewOf(tenths, w, index, atts[0])] + Views(tenths, w, index + 1, atts[1..])
  }

  // ---------------------------------------------------------------- reading what was written

  lemma {:induction false} UntilFirst(before: string, c: char, after: string)
    requires c !in before
    ensures Until(before + ([c] + after), c) == Cut(before, after)
  {
    var s := before + ([c] + after);
    if before == "" {
      assert s[1..] == after;
    } else {
      assert s[1..] == before[1..] + ([c] + after);
      UntilFirst(before[1..], c, after);
      assert [before[0]] + before[1..] == before;
    }
  }

  lemma DropPrefix(prefix: string, rest: string)
    ensures Drop(prefix + rest, prefix) == Some(rest)
  {
  }

  lemma AttrReadsBack(name: string, value: string, rest: string)
    requires '"' !in value
    ensures ReadAttr(Attr(name, value) + rest, name) == Cut(value, rest)
  {
    assert Attr(name, value) + rest == Opening(name) + (value + (['"'] + rest));
    DropPrefix(Opening(name), value + (['"'] + rest));
    UntilFirst(value, '"', rest);
  }

  lemma OptAttrReadsBack(name: string, value: Option<string>, rest: string)
    requires value.Some? ==> '"' !in value.value
    requires value.None? ==> !(Opening(name) <= rest)
    ensures ReadOptAttr(OptAttr(name, value) + rest, name) == Optional(value, rest)
  {
    if value.Some? { AttrReadsBack(name, value.value, rest); } else { assert OptAttr(name, value) + rest == rest; }
  }

  lemma {:induction false} DigitsAreDigits(n: nat)
    ensures forall i | 0 <= i < |Digits(n)| :: IsDigit(Digits(n)[i])
  {
    if n >= 10 { DigitsAreDigits(n / 10); }
  }

  lemma LabelsAreClean(tenths: nat -> nat, n: nat)
    ensures '"' !in Decimal(n) && '"' !in Decimal(n) + "s" && '"' !in FormatSize(tenths, n)
  {
    DigitsAreDigits(n);
    DigitsAreDigits(n / 1024);
    DigitsAreDigits(tenths(n) / 10);
    DigitsAreDigits(tenths(n) % 10);
  }

  lemma Nest(a: string, b: string, c: string, d: string)
    ensures (a + b + c) + d == a + (b + (c + d))
  {
  }

  lemma {:induction false} UnescapePlain(s: string, rest: string)
    requires '&' !in s
    ensures Unescape(s + rest) == s + Unescape(rest)
  {
    if s == "" {
      assert s + rest == rest;
    } else {
      assert (s + rest)[0] == s[0] && (s + rest)[1..] == s[1..] + rest;
      UnescapePlain(s[1..], rest);
      Regroup([s[0]], s[1..], Unescape(rest));
      assert [s[0]] + s[1..] == s;
    }
  }

  lemma UnescapeText(s: string, rest: string)
    ensures Unescape(EscapeText(s) + rest) == s + Unescape(rest)
  {
    EscapesAreCharwise(s);
    UnescapeInverts(s, false, rest);
  }

  lemma PlainReads(s: string)
    requires PlainText(s)
    ensures Unescape(s) == s
  {
    UnescapePlain(s, "");
    assert s + "" == s && Unescape("") == "";
  }

  lemma ContentIsClean(w: Wording, a: Attachment)
    requires w.Plain()
    ensures '<' !in EscapedContent(w, a) && Unescape(EscapedContent(w, a)) == Content(w, a)
  {
    if a.extractedText.Some? && !a.kind.Image? {
      EscapesAreUndone(a.extractedText.value);
      if a.kind.Audio? { UnescapePlain("Transcript: ", EscapeText(a.extractedText.value)); }
    } else {
      PlainReads(Content(w, a));
    }
  }

  lemma SavedReads(saved: string, path: string, content: string)
    requires PlainText(saved) && '<' !in content
    ensures var text := saved + (EscapeText(path) + ("\n" + content));
            '<' !in text && Unescape(text) == saved + (path + ("\n" + Unescape(content)))
  {
    EscapesAreUndone(path);
    UnescapePlain(saved, EscapeText(path) + ("\n" + content));
    UnescapeText(path, "\n" + content);
    UnescapePlain("\n", content);
  }

  lemma Nest4(a: string, b: string, c: string, d: string)
    ensures a + b + c + d == a + (b + (c + d))
  {
  }

  /** The body before escaping. */
  function BodyText(w: Wording, a: Attachment): string {
    if a.localPath.Some? then SAVED + a.localPath.value + "\n" + Content(w, a) else Content(w, a)
  }

  lemma BodyIsClean(w: Wording, a: Attachment)
    requires w.Plain()
    ensures var text := FormatBody(a.localPath, EscapedContent(w, a)); '<' !in text && Unescape(text) == BodyText(w, a)
  {
    ContentIsClean(w, a);
    if a.localPath.Some? {
      var path := a.localPath.value;
      SavedReads(SAVED, path, EscapedContent(w, a));
      Nest4(SAVED, EscapeText(path), "\n", EscapedContent(w, a));
      Nest4(SAVED, path, "\n", Content(w, a));
    }
  }

  lemma BodyNests(text: string, rest: string)
    ensures ">\n" + text + "\n</attachment>" + rest == ">\n" + ((text + "\n") + (['<'] + ("/attachment>" + rest)))
  {
    assert "\n</attachment>" == "\n" + (['<'] + "/attachment>");
  }

  lemma TextReadsBack(text: string, v: View, rest: string)
    requires '<' !in text
    ensures ReadBody(">\n" + ((text + "\n") + (['<'] + ("/attachment>" + rest))), v) ==
        Parsed(v.(body := Unescape(text)), rest)
  {
    var body := text + "\n";
    DropPrefix(">\n", body + (['<'] + ("/attachment>" + rest)));
    UntilFirst(body, '<', "/attachment>" + rest);
    DropPrefix("/attachment>", rest);
    assert body[..|body| - 1] == text;
  }

  /** The body's text is read back whole. */
  lemma BodyReadsBack(w: Wording, a: Attachment, v: View, rest: string)
    requires w.Plain()
    ensures ReadBody(Body(w, a) + rest, v) == Parsed(v.(body := BodyText(w, a)), rest)
  {
    var text := FormatBody(a.localPath, EscapedContent(w, a));
    BodyIsClean(w, a);
    BodyNests(text, rest);
    TextReadsBack(text, v, rest);
  }

  lemma OptionsReadBack(tenths: nat -> nat, w: Wording, a: Attachment, v: View, rest: string)
    requires v.path == None && v.duration == None && v.size == None
    ensures ReadOptions(Options(tenths, a) + (Body(w, a) + rest), v) ==
            ReadBody(Body(w, a) + rest, v.(path := a.localPath, duration := Duration(a), size := Size(tenths, a)))
  {
    var s3 := Body(w, a) + rest;
    var s2 := OptAttr("size", Size(tenths, a)) + s3;
    var s1 := OptAttr("duration", Duration(a)) + s2;
    Nest(OptAttr("project_path", PathAttr(a)), OptAttr("duration", Duration(a)), OptAttr("size", Size(tenths, a)), s3);
    assert s3[0] == '>';
    if a.localPath.Some? { EscapesAreUndone(a.localPath.value); }
    if a.sizeBytes.Some? { LabelsAreClean(tenths, a.sizeBytes.value); }
    if a.durationSecs.Some? { LabelsAreClean(tenths, a.durationSecs.value); }
    assert Opening("project_path")[1] == 'p' && Opening("duration")[1] == 'd';
    assert s2[0] == '>' || s2[1] == 's';
    assert s1[0] == '>' || s1[1] == 's' || s1[1] == 'd';
    OptAttrReadsBack("project_path", PathAttr(a), s1);
    OptAttrReadsBack("duration", Duration(a), s2);
    OptAttrReadsBack("size", Size(tenths, a), s3);
  }

  lemma AttachmentReadsBack(tenths: nat -> nat, w: Wording, index: nat, a: Attachment, rest: string)
    requires w.Plain()
    ensures ReadAttachment(FormatAttachment(tenths, w, index, a) + rest) == Parsed(ViewOf(tenths, w, index, a), rest)
  {
    var s := Options(tenths, a) + (Body(w, a) + rest);
    Nest(Head(index, a), Options(tenths, a), Body(w, a), rest);
    LabelsAreClean(tenths, index);
    HeadReadsBack(index, a, s);
    var v := View(Decimal(index), KindName(a.kind), Filename(a), a.mime, None, None, None, "");
    OptionsReadBack(tenths, w, a, v, rest);
    BodyReadsBack(w, a, v.(path := a.localPath, duration := Duration(a), size := Size(tenths, a)), rest);
  }

  lemma HeadReadsBack(index: nat, a: Attachment, s5: string)
    requires '"' !in Decimal(index)
    ensures ReadAttachment(Head(index, a) + s5) ==
            ReadOptions(s5, View(Decimal(index), KindName(a.kind), Filename(a), a.mime, None, None, None, ""))
  {
    var s4 := Attr("mime", EscapeAttr(a.mime)) + s5;
    var s3 := Attr("filename", EscapeAttr(Filename(a))) + s4;
    var s2 := Attr("type", KindName(a.kind)) + s3;
    var s1 := Attr("index", Decimal(index)) + s2;
    HeadNests(index, a, s5);
    DropPrefix("<attachment", s1);
    AttrReadsBack("index", Decimal(index), s2);
    AttrReadsBack("type", KindName(a.kind), s3);
    EscapesAreUndone(Filename(a));
    AttrReadsBack("filename", EscapeAttr(Filename(a)), s4);
    EscapesAreUndone(a.mime);
    AttrReadsBack("mime", EscapeAttr(a.mime), s5);
  }

  lemma HeadNests(index: nat, a: Attachment, rest: string)
    ensures Head(index, a) + rest ==
            "<attachment" + (Attr("index", Decimal(index)) + (Attr("type", KindName(a.kind))
            + (Attr("filename", EscapeAttr(Filename(a))) + (Attr("mime", EscapeAttr(a.mime)) + rest))))
  {
    var b, c, d, e := Attr("index", Decimal(index)), Attr("type", KindName(a.kind)),
        Attr("filename", EscapeAttr(Filename(a))), Attr("mime", EscapeAttr(a.mime));
    Nest("<attachment" + b + c, d, e, rest);
    Nest("<attachment", b, c, d + (e + rest));
  }

  /** An attachment is not mistaken for the end of the block. */
  lemma NotTheEnd(index: nat, a: Attachment, more: string)
    ensures "\n" + (Head(index, a) + more) != "\n</attachments>"
  {
    HeadNests(index, a, more);
    assert (Head(index, a) + more)[1] == "<attachment"[1] == 'a';
    assert "\n</attachments>"[2] == '/';
  }

  lemma OneReads(s: string, one: string, rest: string, v: View)
    requires s == "\n" + (one + rest) && s != "\n</attachments>" && ReadAttachment(one + rest) == Parsed(v, rest)
    ensures ReadRest(s) == match ReadRest(rest) case None => None case Some(vs) => Some([v] + vs)
  {
    DropPrefix("\n", one + rest);
  }

  /** Whatever text the fields hold, the block reads back as the attachments: their number and order, and of
      each its kind, filename, type, path, duration, size and body. */
  lemma {:induction false} BlockReadsBack(tenths: nat -> nat, w: Wording, index: nat, atts: seq<Attachment>)
    requires w.Plain()
    ensures ReadRest(Rest(tenths, w, index, atts)) == Some(Views(tenths, w, index, atts))
    decreases |atts|
  {
    if atts != [] {
      var rest := Rest(tenths, w, index + 1, atts[1..]);
      var one := FormatAttachment(tenths, w, index, atts[0]);
      BlockReadsBack(tenths, w, index + 1, atts[1..]);
      Regroup("\n", one, rest);
      AttachmentReadsBack(tenths, w, index, atts[0], rest);
      Nest(Head(index, atts[0]), Options(tenths, atts[0]), Body(w, atts[0]), rest);
      NotTheEnd(index, atts[0], Options(tenths, atts[0]) + (Body(w, atts[0]) + rest));
      OneReads(Rest(tenths, w, index, atts), one, rest, ViewOf(tenths, w, index, atts[0]));
    }
  }

  // ---------------------------------------------------------------- what the block tells

  /** The size in bytes below a kilobyte, in whole kilobytes below a megabyte, and else in tenths of megabytes. */
  predicate SizeTold(tenths: nat -> nat, bytes: nat, text: string) {
    && (bytes <= 1023 ==> text == Decimal(bytes) + "B")
    && (1024 <= bytes <= 1048575 ==> text == Decimal(bytes / 1024) + "KB")
    && (bytes >= 1048576 ==> text == Decimal(tenths(bytes) / 10) + "." + Decimal(tenths(bytes) % 10) + "MB")
  }

  /** The text of an audio or a document is told whole when there is one; an image's bytes are told to be seen when they
      are there, to be on disk when only saved, and to be gone otherwise. */
  predicate TextTold(w: Wording, a: Attachment, text: string) {
    && (a.kind == Audio && a.extractedText.Some? ==> text == "Transcript: " + a.extractedText.value)
    && (a.kind == Audio && a.extractedText.None? ==> text == w.audioGone)
    && (a.kind == Document && a.extractedText.Some? ==> text == a.extractedText.value)
    && (a.kind == Document && a.extractedText.None? ==> text == w.documentGone)
    && (a.kind == Image && a.data != [] ==> text == w.imageSeen)
    && (a.kind == Image && a.data == [] && a.localPath.Some? ==> text == w.imageOnDisk)
    && (a.kind == Image && a.data == [] && a.localPath.None? ==> text == w.imageGone)
  }

  /** Everything there is to know of an attachment is in what a reader learns, and nothing else. */
  ghost predicate Told(tenths: nat -> nat, w: Wording, index: nat, a: Attachment, v: View) {
    && v.index == Decimal(index) && v.mime == a.mime && v.path == a.localPath
    && v.kind == (match a.kind case Audio => "audio" case Image => "image" case Document => "document")
    && v.filename == (if a.filename.Some? then a.filename.value else "unknown")
    && v.duration == (if a.kind == Audio && a.durationSecs.Some? then Some(Decimal(a.durationSecs.value) + "s")
        else None)
    && (v.size.Some? <==> a.sizeBytes.Some?)
    && (v.size.Some? ==> SizeTold(tenths, a.sizeBytes.value, v.size.value))
    && exists text :: TextTold(w, a, text)
         && v.body == (if a.localPath.Some? then "Saved to project file: " + a.localPath.value + "\n" else "") + text
  }

  lemma BodyIsTold(w: Wording, a: Attachment) returns (text: string)
    ensures TextTold(w, a, text)
    ensures BodyText(w, a) ==
            (if a.localPath.Some? then "Saved to project file: " + a.localPath.value + "\n" else "") + text
  {
    text := Content(w, a);
    assert "" + text == text;
  }

  /** What a reader of the block learns of attachment `i` is what there is to know of it, and its number. */
  lemma EachIsTold(tenths: nat -> nat, w: Wording, atts: seq<Attachment>, i: nat)
    requires w.Plain() && i < |atts|
    ensures var views := ReadRest(Rest(tenths, w, 1, atts));
            views.Some? && |views.value| == |atts| && Told(tenths, w, i + 1, atts[i], views.value[i])
  {
    var read, views := ReadRest(Rest(tenths, w, 1, atts)), Views(tenths, w, 1, atts);
    assert read == Some(views) by { BlockReadsBack(tenths, w, 1, atts); }
    ViewAt(tenths, w, 1, atts, i);
    assert Told(tenths, w, i + 1, atts[i], views[i]) by { ViewIsTold(tenths, w, i + 1, atts[i]); }
  }

  lemma ViewIsTold(tenths: nat -> nat, w: Wording, index: nat, a: Attachment)
    ensures Told(tenths, w, index, a, ViewOf(tenths, w, index, a))
  {
    var text := BodyIsTold(w, a);
  }

  lemma {:induction false} ViewAt(tenths: nat -> nat, w: Wording, index: nat, atts: seq<Attachment>, i: nat)
    requires i < |atts|
    ensures var views := Views(tenths, w, index, atts);
            |views| == |atts| && views[i] == ViewOf(tenths, w, index + i, atts[i])
    decreases |atts|
  {
    if |atts| > 1 { ViewAt(tenths, w, index + 1, atts[1..], if i > 0 then i - 1 else 0); }
  }

  lemma {:induction false} PartsOfConcat(base64: seq<bv8> -> string, a: seq<Attachment>, b: seq<Attachment>)
    ensures ImageParts(base64, a + b) == ImageParts(base64, a) + ImageParts(base64, b)
  {
    if b == [] {
      assert a + b == a;
    } else {
      assert (a + b)[..|a + b| - 1] == a + b[..|b| - 1];
      PartsOfConcat(base64, a, b[..|b| - 1]);
    }
  }

  /** The image parts are those of the images whose bytes are there, in order and one each. */
  lemma PartsAreOfImages(base64: seq<bv8> -> string, before: seq<Attachment>, a: Attachment, after: seq<Attachment>)
    ensures ImageParts(base64, before + [a] + after) ==
            ImageParts(base64, before)
            + (if a.kind == Image && |a.data| > 0 then [ImagePart("data:" + a.mime + ";base64," + base64(a.data), "auto")]
               else [])
            + ImageParts(base64, after)
    ensures ImageParts(base64, []) == []
  {
    PartsOfConcat(base64, before + [a], after);
    PartsOfConcat(base64, before, [a]);
    assert [a][..0] == [] && ImageParts(base64, []) == [];
  }

  // ---------------------------------------------------------------- the templates' own sentences

  const IMAGE_SEEN_1 :=
    "[Image attached — you can already see " + "this image directly in the " + "conversation. Do NOT use image_analyze "
  const IMAGE_SEEN_2 :=
    "or try to find this file on disk — " + "it exists only in memory. Analyze it " + "using your vision capabilities.]"

  const IMAGE_ON_DISK_1 :=
    "[Image attached — the raw bytes are not " + "in this turn's multimodal context, but "
        + "the file has been persisted at the "
  const IMAGE_ON_DISK_2 := "project file path above. Reference " + "that path when you need the image.]"

  const IMAGE_GONE := "[Image attached — visual content not " + "available in this conversation.]"

  const DOCUMENT_GONE := "[Document attached — text " + "extraction unavailable]"

  const AUDIO_GONE := "Audio transcript unavailable."

  lemma SeenIsPlain()
    ensures PlainText(IMAGE_SEEN_1)
  {
    assert PlainText("[Image attached — you can already see ");
    assert PlainText("this image directly in the ");
    assert PlainText("conversation. Do NOT use image_analyze ");
  }

  lemma SeenEndIsPlain()
    ensures PlainText(IMAGE_SEEN_2)
  {
    assert PlainText("or try to find this file on disk — ");
    assert PlainText("it exists only in memory. Analyze it ");
    assert PlainText("using your vision capabilities.]");
  }

  lemma OnDiskIsPlain()
    ensures PlainText(IMAGE_ON_DISK_1)
  {
    assert PlainText("[Image attached — the raw bytes are not ");
    assert PlainText("in this turn's multimodal context, but ");
    assert PlainText("the file has been persisted at the ");
  }

  lemma OnDiskEndIsPlain()
    ensures PlainText(IMAGE_ON_DISK_2)
  {
    assert PlainText("project file path above. Reference ");
    assert PlainText("that path when you need the image.]");
  }

  lemma ShortSentencesArePlain()
    ensures PlainText(IMAGE_GONE) && PlainText(DOCUMENT_GONE) && PlainText(AUDIO_GONE)
  {
    assert PlainText("[Image attached — visual content not ");
    assert PlainText("available in this conversation.]");
    assert PlainText("[Document attached — text ");
    assert PlainText("extraction unavailable]");
  }

  lemma PlainConcat(a: string, b: string)
    requires PlainText(a) && PlainText(b)
    ensures PlainText(a + b)
  {
  }

  /** The sentences that the templates do use hold no markup. */
  lemma WordingIsPlain()
    ensures Wording(IMAGE_SEEN_1 + IMAGE_SEEN_2, IMAGE_ON_DISK_1 + IMAGE_ON_DISK_2, IMAGE_GONE, DOCUMENT_GONE,
        AUDIO_GONE).Plain()
  {
    SeenIsPlain();
    SeenEndIsPlain();
    PlainConcat(IMAGE_SEEN_1, IMAGE_SEEN_2);
    OnDiskIsPlain();
    OnDiskEndIsPlain();
    PlainConcat(IMAGE_ON_DISK_1, IMAGE_ON_DISK_2);
    ShortSentencesArePlain();
  }
}
