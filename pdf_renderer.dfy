/** The text side of `PDFRenderer`: the XML escaping of ReportLab paragraph
    text, the body paragraphs of a document, and `create_document_metadata`. */
module PdfRenderer {
  import opened Wrappers
  import opened Text
  import opened Models

  // ------------------------------------------------------------ XML escaping

  /** `s.replace(c, rep)` for a one-character pattern: every occurrence of
      `c`, left to right, becomes `rep`. */
  function ReplaceChar(s: string, c: char, rep: string): string {
    if |s| == 0 then [] else (if s[0] == c then rep else [s[0]]) + ReplaceChar(s[1..], c, rep)
  }

  /** `_escape_xml`: `&` first, then `<`, then `>`. */
  function EscapeXml(s: string): string {
    ReplaceChar(ReplaceChar(ReplaceChar(s, '&', "&amp;"), '<', "&lt;"), '>', "&gt;")
  }

  /** The entity of one character, or the character itself. */
  function EscapeChar(c: char): string {
    if c == '&' then "&amp;" else if c == '<' then "&lt;" else if c == '>' then "&gt;" else [c]
  }

  /** Escaping character by character, each on its own: the reference the
      replace chain is compared with. */
  function Escaped(s: string): string {
    if |s| == 0 then [] else EscapeChar(s[0]) + Escaped(s[1..])
  }

  /** `&amp;` at the start of `s`. */
  predicate AmpFirst(s: string) {
    |s| >= 5 && s[0] == '&' && s[1] == 'a' && s[2] == 'm' && s[3] == 'p' && s[4] == ';'
  }

  /** `&lt;` at the start of `s`. */
  predicate LtFirst(s: string) {
    |s| >= 4 && s[0] == '&' && s[1] == 'l' && s[2] == 't' && s[3] == ';'
  }

  /** `&gt;` at the start of `s`. */
  predicate GtFirst(s: string) {
    |s| >= 4 && s[0] == '&' && s[1] == 'g' && s[2] == 't' && s[3] == ';'
  }

  /** Reading entities back: `&amp;`, `&lt;` and `&gt;` become their
      characters, and every other character stays. */
  function Unescape(s: string): string
    decreases |s|
  {
    if |s| == 0 then []
    else if AmpFirst(s) then ['&'] + Unescape(s[5..])
    else if LtFirst(s) then ['<'] + Unescape(s[4..])
    else if GtFirst(s) then ['>'] + Unescape(s[4..])
    else [s[0]] + Unescape(s[1..])
  }

  /** The characters the three entities are written with. */
  predicate EntityChar(c: char) {
    c == '&' || c == ';' || c == 'a' || c == 'm' || c == 'p' || c == 'l' || c == 'g' || c == 't'
  }

  /** The number of occurrences of `c` in `s`. */
  function Count(s: string, c: char): nat {
    if |s| == 0 then 0 else (if s[0] == c then 1 else 0) + Count(s[1..], c)
  }

  /** Replacing distributes over concatenation. */
  lemma {:induction false} ReplaceCharConcat(a: string, b: string, c: char, rep: string)
    ensures ReplaceChar(a + b, c, rep) == ReplaceChar(a, c, rep) + ReplaceChar(b, c, rep)
    decreases |a|
  {
    if |a| > 0 {
      assert (a + b)[0] == a[0];
      assert (a + b)[1..] == a[1..] + b;
      ReplaceCharConcat(a[1..], b, c, rep);
    } else {
      assert a + b == b;
    }
  }

  /** Replacing a character the string does not hold changes nothing. */
  lemma {:induction false} ReplaceCharAbsent(s: string, c: char, rep: string)
    requires c !in s
    ensures ReplaceChar(s, c, rep) == s
    decreases |s|
  {
    if |s| > 0 {
      ReplaceCharAbsent(s[1..], c, rep);
    }
  }

  /** Escaping distributes over concatenation. */
  lemma EscapeXmlConcat(a: string, b: string)
    ensures EscapeXml(a + b) == EscapeXml(a) + EscapeXml(b)
  {
    var a1 := ReplaceChar(a, '&', "&amp;");
    var b1 := ReplaceChar(b, '&', "&amp;");
    ReplaceCharConcat(a, b, '&', "&amp;");
    var a2 := ReplaceChar(a1, '<', "&lt;");
    var b2 := ReplaceChar(b1, '<', "&lt;");
    ReplaceCharConcat(a1, b1, '<', "&lt;");
    ReplaceCharConcat(a2, b2, '>', "&gt;");
  }

  /** Replacing in a one-character string. */
  lemma ReplaceCharSingle(x: char, c: char, rep: string)
    ensures ReplaceChar([x], c, rep) == if x == c then rep else [x]
  {
    assert [x][1..] == [];
  }

  /** One character goes through the replace chain as its own entity. */
  lemma EscapeXmlChar(c: char)
    ensures EscapeXml([c]) == EscapeChar(c)
  {
    ReplaceCharSingle(c, '&', "&amp;");
    var s1 := ReplaceChar([c], '&', "&amp;");
    if c == '&' {
      assert '<' !in s1 && '>' !in s1 by {
        assert s1 == ['&', 'a', 'm', 'p', ';'];
      }
      ReplaceCharAbsent(s1, '<', "&lt;");
      ReplaceCharAbsent(s1, '>', "&gt;");
    } else {
      assert s1 == [c];
      ReplaceCharSingle(c, '<', "&lt;");
      var s2 := ReplaceChar([c], '<', "&lt;");
      if c == '<' {
        assert '>' !in s2 by {
          assert s2 == ['&', 'l', 't', ';'];
        }
        ReplaceCharAbsent(s2, '>', "&gt;");
      } else {
        assert s2 == [c];
        ReplaceCharSingle(c, '>', "&gt;");
      }
    }
  }

  /** The replace chain escapes every character on its own: because `&` is
      replaced first, a `<` becomes exactly `&lt;` and a `>` exactly `&gt;`,
      and no entity is escaped a second time. */
  lemma {:induction false} EscapeXmlPerChar(s: string)
    ensures EscapeXml(s) == Escaped(s)
    decreases |s|
  {
    if |s| > 0 {
      assert s == [s[0]] + s[1..];
      EscapeXmlConcat([s[0]], s[1..]);
      EscapeXmlChar(s[0]);
      EscapeXmlPerChar(s[1..]);
    }
  }

  /** Escaped text holds no `<` and no `>`. */
  lemma {:induction false} EscapedNoBrackets(s: string)
    ensures '<' !in Escaped(s) && '>' !in Escaped(s)
    decreases |s|
  {
    if |s| > 0 {
      EscapedNoBrackets(s[1..]);
    }
  }

  /** Escaped text holds a character that is neither escaped nor used to
      write the entities exactly when the input does. */
  lemma {:induction false} EscapedKeeps(s: string, c: char)
    requires !EntityChar(c) && c != '<' && c != '>'
    ensures c in Escaped(s) <==> c in s
    decreases |s|
  {
    if |s| > 0 {
      EscapedKeeps(s[1..], c);
      assert s == [s[0]] + s[1..];
      var e := EscapeChar(s[0]);
      assert c in e <==> c == s[0] by {
        if s[0] == '&' {
          assert e == ['&', 'a', 'm', 'p', ';'];
        } else if s[0] == '<' {
          assert e == ['&', 'l', 't', ';'];
        } else if s[0] == '>' {
          assert e == ['&', 'g', 't', ';'];
        } else {
          assert e == [s[0]];
        }
      }
    }
  }

  /** The length of the escaped text: four more characters per `&`, three
      more per `<` and per `>`. */
  lemma {:induction false} EscapedLength(s: string)
    ensures |Escaped(s)| == |s| + 4 * Count(s, '&') + 3 * Count(s, '<') + 3 * Count(s, '>')
    decreases |s|
  {
    if |s| > 0 {
      EscapedLength(s[1..]);
    }
  }

  /** Text without `&`, `<` and `>` is its own escape. */
  lemma {:induction false} EscapedPlain(s: string)
    requires '&' !in s && '<' !in s && '>' !in s
    ensures Escaped(s) == s
    decreases |s|
  {
    if |s| > 0 {
      EscapedPlain(s[1..]);
      assert s == [s[0]] + s[1..];
    }
  }

  /** Reading back one entity, or one plain character. */
  lemma UnescapeStep(c: char, t: string)
    ensures Unescape(EscapeChar(c) + t) == [c] + Unescape(t)
  {
    var s := EscapeChar(c) + t;
    if c == '&' {
      assert EscapeChar(c) == ['&', 'a', 'm', 'p', ';'];
      assert AmpFirst(s) && s[5..] == t;
    } else if c == '<' {
      assert EscapeChar(c) == ['&', 'l', 't', ';'];
      assert !AmpFirst(s) && LtFirst(s) && s[4..] == t;
    } else if c == '>' {
      assert EscapeChar(c) == ['&', 'g', 't', ';'];
      assert !AmpFirst(s) && !LtFirst(s) && GtFirst(s) && s[4..] == t;
    } else {
      assert s[0] == c && s[1..] == t;
    }
  }

  /** Unescaping undoes escaping. */
  lemma {:induction false} UnescapeEscaped(s: string)
    ensures Unescape(Escaped(s)) == s
    decreases |s|
  {
    if |s| > 0 {
      UnescapeStep(s[0], Escaped(s[1..]));
      UnescapeEscaped(s[1..]);
      assert s == [s[0]] + s[1..];
    }
  }

  /** What `_escape_xml` promises ReportLab: no `<` or `>` is left, every
      other character is kept in order, the length grows by the entities, the
      text is unchanged without special characters, and it reads back as the
      input. */
  lemma EscapeXmlProperties(s: string)
    ensures '<' !in EscapeXml(s) && '>' !in EscapeXml(s)
    ensures |EscapeXml(s)| == |s| + 4 * Count(s, '&') + 3 * Count(s, '<') + 3 * Count(s, '>')
    ensures '&' !in s && '<' !in s && '>' !in s ==> EscapeXml(s) == s
    ensures Unescape(EscapeXml(s)) == s
  {
    EscapeXmlPerChar(s);
    EscapedNoBrackets(s);
    EscapedLength(s);
    if '&' !in s && '<' !in s && '>' !in s {
      EscapedPlain(s);
    }
    UnescapeEscaped(s);
  }

  // --------------------------------------------------------- body paragraphs

  /** The paragraphs of the content's lines: each line whose strip is not
      empty gives its stripped, escaped text. Defined on the last line, so
      that the loop of `BuildBody` matches it line by line. */
  function KeptParagraphs(lines: seq<string>): (r: seq<string>)
    ensures |r| <= |lines|
    ensures forall i :: 0 <= i < |r| ==>
      exists j :: 0 <= j < |lines| && Strip(lines[j]) != "" && r[i] == EscapeXml(Strip(lines[j]))
  {
    if |lines| == 0 then []
    else
      var front := KeptParagraphs(lines[..|lines| - 1]);
      var last := lines[|lines| - 1];
      var r := front + (if Strip(last) != "" then [EscapeXml(Strip(last))] else []);
      assert forall i :: 0 <= i < |front| ==> r[i] == front[i];
      assert forall j :: 0 <= j < |lines| - 1 ==> lines[..|lines| - 1][j] == lines[j];
      r
  }

  /** The body paragraphs of a document's content. */
  function BodyParagraphs(content: string): seq<string> {
    KeptParagraphs(Split(content, '\n'))
  }

  /** The content part of `_build_story`: split on `"\n"`, and append the
      escaped strip of every line that is not blank. */
  method BuildBody(content: string) returns (story: seq<string>)
    ensures story == BodyParagraphs(content)
  {
    var paragraphs := Split(content, '\n');
    story := [];
    for i := 0 to |paragraphs|
      invariant story == KeptParagraphs(paragraphs[..i])
    {
      assert paragraphs[..i + 1][..i] == paragraphs[..i];
      var paraText := paragraphs[i];
      if Strip(paraText) != "" {
        var escapedText := EscapeXml(Strip(paraText));
        story := story + [escapedText];
      }
    }
    assert paragraphs[..|paragraphs|] == paragraphs;
  }

  /** The stripped lines that are not blank, in order: the independent
      reading of what the paragraphs say. */
  function StrippedLines(lines: seq<string>): seq<string> {
    if |lines| == 0 then []
    else (if Strip(lines[0]) != "" then [Strip(lines[0])] else []) + StrippedLines(lines[1..])
  }

  lemma {:induction false} StrippedLinesSnoc(lines: seq<string>, x: string)
    ensures StrippedLines(lines + [x]) == StrippedLines(lines) + (if Strip(x) != "" then [Strip(x)] else [])
    decreases |lines|
  {
    if |lines| > 0 {
      assert (lines + [x])[0] == lines[0];
      assert (lines + [x])[1..] == lines[1..] + [x];
      StrippedLinesSnoc(lines[1..], x);
    } else {
      assert lines + [x] == [x];
      assert [x][1..] == [];
    }
  }

  /** Every paragraph read back. */
  function UnescapeAll(ps: seq<string>): (r: seq<string>)
    ensures |r| == |ps| && forall i :: 0 <= i < |ps| ==> r[i] == Unescape(ps[i])
  {
    if |ps| == 0 then [] else [Unescape(ps[0])] + UnescapeAll(ps[1..])
  }

  /** Reading back distributes over concatenation. */
  lemma {:induction false} UnescapeAllConcat(a: seq<string>, b: seq<string>)
    ensures UnescapeAll(a + b) == UnescapeAll(a) + UnescapeAll(b)
  {
    var r := UnescapeAll(a + b);
    var t := UnescapeAll(a) + UnescapeAll(b);
    assert |r| == |t|;
    forall i | 0 <= i < |r| ensures r[i] == t[i] {
      if i < |a| {
        assert (a + b)[i] == a[i];
      } else {
        assert (a + b)[i] == b[i - |a|];
      }
    }
  }

  /** The paragraphs, read back, are exactly the stripped lines that are not
      blank, in the order of the lines. */
  lemma {:induction false} KeptParagraphsRead(lines: seq<string>)
    ensures UnescapeAll(KeptParagraphs(lines)) == StrippedLines(lines)
    decreases |lines|
  {
    if |lines| > 0 {
      var front := lines[..|lines| - 1];
      var last := lines[|lines| - 1];
      var tail := if Strip(last) != "" then [EscapeXml(Strip(last))] else [];
      var kept := if Strip(last) != "" then [Strip(last)] else [];
      assert KeptParagraphs(lines) == KeptParagraphs(front) + tail;
      KeptParagraphsRead(front);
      UnescapeAllConcat(KeptParagraphs(front), tail);
      assert UnescapeAll(tail) == kept by {
        if Strip(last) != "" {
          EscapeXmlProperties(Strip(last));
        }
      }
      assert StrippedLines(lines) == StrippedLines(front) + kept by {
        StrippedLinesSnoc(front, last);
        LastSplit(lines);
      }
    }
  }

  lemma LastSplit<T>(s: seq<T>)
    requires |s| > 0
    ensures s == s[..|s| - 1] + [s[|s| - 1]]
  {
  }

  /** The body of a document is its non-blank lines, stripped, in order; and
      every paragraph is non-empty and holds no `<`, no `>` and no newline. */
  lemma BodyParagraphsProperties(content: string)
    ensures UnescapeAll(BodyParagraphs(content)) == StrippedLines(Split(content, '\n'))
    ensures forall i :: 0 <= i < |BodyParagraphs(content)| ==>
      var p := BodyParagraphs(content)[i];
      |p| >= 1 && '<' !in p && '>' !in p && '\n' !in p
  {
    var lines := Split(content, '\n');
    KeptParagraphsRead(lines);
    forall i | 0 <= i < |BodyParagraphs(content)|
      ensures var p := BodyParagraphs(content)[i]; |p| >= 1 && '<' !in p && '>' !in p && '\n' !in p
    {
      var p := BodyParagraphs(content)[i];
      var j :| 0 <= j < |lines| && Strip(lines[j]) != "" && p == EscapeXml(Strip(lines[j]));
      ParagraphOfLine(lines[j]);
    }
  }

  /** One kept line gives a paragraph that is not empty and holds no `<`, no
      `>` and no newline. */
  lemma ParagraphOfLine(line: string)
    requires '\n' !in line && Strip(line) != ""
    ensures var p := EscapeXml(Strip(line)); |p| >= 1 && '<' !in p && '>' !in p && '\n' !in p
  {
    var t := Strip(line);
    EscapeXmlProperties(t);
    EscapeXmlPerChar(t);
    EscapedKeeps(t, '\n');
    if '\n' in t {
      StripWithin(line, '\n');
    }
  }

  // ------------------------------------------------------- document metadata

  /** Why `create_document_metadata` raises. */
  datatype MetadataError =
    | UnknownLanguageCode(code: string)
    | InvalidDocument(violations: seq<Violation>)

  /** `create_document_metadata`: `LanguageCode(language)` (a `ValueError`
      for an unknown code), then `GeneratedDocument(...)` with the other
      fields as given and the clock reading `now` as its timestamp. */
  function CreateDocumentMetadata(docId: string, domain: string, category: string, language: string,
                                  content: string, outputPath: string, now: int): (r: Result<GeneratedDocument, MetadataError>)
    ensures ParseLanguage(language).None? ==> r == Err(UnknownLanguageCode(language))
    ensures r.Ok? <==> (ParseLanguage(language).Some?
      && ValidDocument(GeneratedDocument(docId, domain, category, ParseLanguage(language).value, content, now, outputPath)))
    ensures r.Ok? ==> (r.value.docId == docId && r.value.domain == domain && r.value.category == category
      && Code(r.value.language) == language && r.value.content == content
      && r.value.timestamp == now && r.value.pdfPath == outputPath)
    ensures r.Err? && ParseLanguage(language).Some? ==> r.error.InvalidDocument? && |r.error.violations| >= 1
  {
    match ParseLanguage(language)
    case None => Err(UnknownLanguageCode(language))
    case Some(lang) =>
      match CheckDocument(GeneratedDocument(docId, domain, category, lang, content, now, outputPath))
      case Err(vs) => Err(InvalidDocument(vs))
      case Ok(doc) => Ok(doc)
  }

  /** Every valid document is what `create_document_metadata` makes of its
      own fields. */
  lemma MetadataOfDocument(doc: GeneratedDocument)
    requires ValidDocument(doc)
    ensures CreateDocumentMetadata(doc.docId, doc.domain, doc.category, Code(doc.language),
                                   doc.content, doc.pdfPath, doc.timestamp) == Ok(doc)
  {
    assert ParseLanguage(Code(doc.language)) == Some(doc.language);
  }
}
