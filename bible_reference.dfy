/**
 * `parseBibleReference` and `checkLinkText`: turning the text of a link such
 * as `I Peter 1:3-5|my text` into the chapter note it points at, the 0-based
 * line range of the verses and the text to show.
 */
module BibleReference {
  import opened Wrappers
  import opened JsStrings
  import opened ReferenceRegex
  import opened BibleBooks
  import opened ChapterFiles

  /**
   * `ParsedLink`: the chapter note, the first and (optionally) last line of
   * the embedded range, the text to display and, once `checkLink` has found
   * it, the vault file.  `startLine` is -1 for verse 0.
   */
  datatype ParsedLink = ParsedLink(
    note: string,
    startLine: int,
    endLine: Option<int>,
    altText: string,
    file: Option<VaultFile>)

  /** `endVerse ? … : …`: an end verse that parses to 0 is falsy and counts as absent. */
  function PresentVerse(endVerse: Option<nat>): (r: Option<nat>)
    ensures r.Some? <==> endVerse.Some? && endVerse.value != 0
    ensures r.Some? ==> r == endVerse
  {
    if endVerse.Some? && endVerse.value != 0 then endVerse else None
  }

  /** The alt text built when the link supplies none: `<book> <chapter>:<start>[-<end>]`. */
  function DefaultAltText(bookName: string, chapter: nat, startVerse: nat, endVerse: Option<nat>): (r: string)
    ensures |r| > |bookName| + 2 && r[..|bookName|] == bookName && r[|bookName|] == ' '
  {
    var suffix := if PresentVerse(endVerse).Some? then "-" + NatToString(endVerse.value) else "";
    bookName + " " + NatToString(chapter) + ":" + NatToString(startVerse) + suffix
  }

  /** `parseInt` of the optional end-verse group. */
  function EndVerseValue(endVerse: Option<string>): (r: Option<nat>)
    requires endVerse.Some? ==> AllDigits(endVerse.value)
    ensures r.Some? <==> endVerse.Some?
    ensures r.Some? ==> r.value == DecimalValue(endVerse.value)
  {
    if endVerse.Some? then Some(DecimalValue(endVerse.value)) else None
  }

  /**
   * `parseBibleReference`: match the trimmed link text against the
   * reference pattern, then read the match.  `None` when the pattern fails
   * or the book is unknown.
   */
  function ParseBibleReference(href: string, bibleFolder: string): (r: Option<ParsedLink>)
    ensures r.Some? ==> MatchReference(Trim(href)).Some?
    ensures r.Some? ==>
              && r.value.note != []
              && r.value.startLine >= -1
              && (r.value.endLine.Some? ==> r.value.endLine.value >= 0)
              && r.value.altText != []
              && r.value.file.None?
  {
    var m := MatchReference(Trim(href));
    if m.None? then None else ReadMatch(m.value, bibleFolder)
  }

  /**
   * The part of `parseBibleReference` after a successful match: resolve the
   * chapter note and convert verses to 0-based lines.
   */
  function ReadMatch(m: ReferenceMatch, bibleFolder: string): (r: Option<ParsedLink>)
    requires WellFormedTail(m.tail)
    ensures r.None? <==> ChapterFileName(Trim(m.book), DecimalValue(m.tail.chapter), bibleFolder).None?
    ensures r.Some? ==>
              && r.value.note != []
              && r.value.startLine >= -1
              && (r.value.endLine.Some? ==> r.value.endLine.value >= 0)
              && r.value.altText != []
              && r.value.file.None?
  {
    var bookName := Trim(m.book);
    var chapter := DecimalValue(m.tail.chapter);
    var startVerse := DecimalValue(m.tail.startVerse);
    var endVerse := EndVerseValue(m.tail.endVerse);
    var customAltText := m.tail.rest;
    var chapterFileName := ChapterFileName(bookName, chapter, bibleFolder);
    if chapterFileName.None? || chapterFileName.value == "" then None
    else
      var endLine := if PresentVerse(endVerse).Some? then Some(endVerse.value - 1) else None;
      var altText := if customAltText != "" then customAltText
                     else DefaultAltText(bookName, chapter, startVerse, endVerse);
      Some(ParsedLink(chapterFileName.value, startVerse - 1, endLine, altText, None))
  }

  /** `checkLinkText`: every link text is read as a Bible reference. */
  function CheckLinkText(href: string, bibleFolder: string): (r: Option<ParsedLink>)
    ensures r == ParseBibleReference(href, bibleFolder)
  {
    ParseBibleReference(href, bibleFolder)
  }

  /**
   * Once the pattern matches, the parse fails exactly when the book (after
   * trimming and alias resolution) is not one of the 66.
   */
  lemma ParseFailsOnlyForUnknownBook(href: string, bibleFolder: string)
    requires MatchReference(Trim(href)).Some?
    ensures var m := MatchReference(Trim(href)).value;
            ParseBibleReference(href, bibleFolder).None? <==>
              BookIndex(CanonicalName(Trim(Trim(m.book)))).None?
  {
  }

  /** A reference written the way the pattern reads it. */
  function FormatReference(book: string, chapter: nat, startVerse: nat, endVerse: Option<nat>, altText: string): string {
    var endText := if endVerse.Some? then "-" + NatToString(endVerse.value) else "";
    var altPart := if altText != "" then "|" + altText else "";
    book + (" " + (NatToString(chapter) + (":" + (NatToString(startVerse) + (endText + altPart)))))
  }

  /** The match the pattern produces for a formatted reference. */
  function FormattedTail(chapter: nat, startVerse: nat, endVerse: Option<nat>, altText: string): Tail {
    var endText := if endVerse.Some? then Some(NatToString(endVerse.value)) else None;
    Tail(" ", NatToString(chapter), NatToString(startVerse), endText, altText != "", altText)
  }

  lemma FormatAsTail(book: string, chapter: nat, startVerse: nat, endVerse: Option<nat>, altText: string)
    ensures FormatReference(book, chapter, startVerse, endVerse, altText)
            == book + TailText(FormattedTail(chapter, startVerse, endVerse, altText))
  {
    var t := FormattedTail(chapter, startVerse, endVerse, altText);
    var endText := if endVerse.Some? then "-" + NatToString(endVerse.value) else "";
    var altPart := if altText != "" then "|" + altText else "";
    assert EndVerseText(t.endVerse) == endText;
    assert PipeText(t.pipe) + t.rest == altPart;
  }

  lemma FormattedTailMatches(chapter: nat, startVerse: nat, endVerse: Option<nat>, altText: string)
    requires NoLineTerminator(altText)
    ensures var t := FormattedTail(chapter, startVerse, endVerse, altText);
            WellFormedTail(t) && GreedyTail(t)
  {
  }

  /** A formatted reference is its own trim: it starts with the book and ends with a digit or the alt text. */
  lemma FormattedIsTrimmed(book: string, chapter: nat, startVerse: nat, endVerse: Option<nat>, altText: string)
    requires book != [] && IsTrimmed(book)
    requires altText == [] || !IsSpace(altText[|altText| - 1])
    ensures IsTrimmed(FormatReference(book, chapter, startVerse, endVerse, altText))
  {
    var s := FormatReference(book, chapter, startVerse, endVerse, altText);
    var sv := NatToString(startVerse);
    var endText := if endVerse.Some? then "-" + NatToString(endVerse.value) else "";
    var altPart := if altText != "" then "|" + altText else "";
    var head := book + (" " + (NatToString(chapter) + (":" + sv)));
    assert s == head + (endText + altPart);
    assert s[0] == book[0];
    if altText != "" {
      assert s[|s| - 1] == altText[|altText| - 1];
    } else if endVerse.Some? {
      var ev := NatToString(endVerse.value);
      assert s[|s| - 1] == ev[|ev| - 1];
    } else {
      assert s[|s| - 1] == sv[|sv| - 1];
    }
  }

  /**
   * Parsing a formatted reference recovers what was written: the chapter
   * note of the book, the start verse as line `start - 1`, the end verse as
   * line `end - 1` unless it is 0, and the alt text or, without one, the
   * default `<book> <chapter>:<start>[-<end>]`.
   */
  lemma ParseFormattedReference(book: string, chapter: nat, startVerse: nat, endVerse: Option<nat>,
                                altText: string, bibleFolder: string)
    requires book != [] && IsTrimmed(book) && NoPipe(book) && ':' !in book
    requires NoLineTerminator(altText) && (altText == [] || !IsSpace(altText[|altText| - 1]))
    ensures var path := ChapterFileName(book, chapter, bibleFolder);
            var r := ParseBibleReference(FormatReference(book, chapter, startVerse, endVerse, altText), bibleFolder);
            && (r.None? <==> path.None?)
            && (r.Some? ==>
                  && r.value.note == path.value
                  && r.value.startLine == startVerse - 1
                  && r.value.endLine == (if endVerse.Some? && endVerse.value != 0 then Some(endVerse.value - 1) else None)
                  && r.value.altText == (if altText != "" then altText
                                         else DefaultAltText(book, chapter, startVerse, endVerse)))
  {
    FormattedMatch(book, chapter, startVerse, endVerse, altText);
    ReadFormattedTail(book, chapter, startVerse, endVerse, altText, bibleFolder);
  }

  /** The pattern splits a formatted reference back into its book and its formatted tail. */
  lemma FormattedMatch(book: string, chapter: nat, startVerse: nat, endVerse: Option<nat>, altText: string)
    requires book != [] && IsTrimmed(book) && NoPipe(book) && ':' !in book
    requires NoLineTerminator(altText) && (altText == [] || !IsSpace(altText[|altText| - 1]))
    ensures MatchReference(Trim(FormatReference(book, chapter, startVerse, endVerse, altText)))
            == Some(ReferenceMatch(book, FormattedTail(chapter, startVerse, endVerse, altText)))
  {
    var s := FormatReference(book, chapter, startVerse, endVerse, altText);
    var t := FormattedTail(chapter, startVerse, endVerse, altText);
    FormatAsTail(book, chapter, startVerse, endVerse, altText);
    FormattedTailMatches(chapter, startVerse, endVerse, altText);
    FormattedIsTrimmed(book, chapter, startVerse, endVerse, altText);
    TrimOfTrimmed(s);
    MatchReferenceOfReference(book, t);
  }

  /** Reading the formatted tail gives back the numbers and the alt text it was built from. */
  lemma ReadFormattedTail(book: string, chapter: nat, startVerse: nat, endVerse: Option<nat>,
                          altText: string, bibleFolder: string)
    requires IsTrimmed(book) && NoLineTerminator(altText)
    ensures WellFormedTail(FormattedTail(chapter, startVerse, endVerse, altText))
    ensures var path := ChapterFileName(book, chapter, bibleFolder);
            var r := ReadMatch(ReferenceMatch(book, FormattedTail(chapter, startVerse, endVerse, altText)), bibleFolder);
            && (r.None? <==> path.None?)
            && (r.Some? ==>
                  && r.value.note == path.value
                  && r.value.startLine == startVerse - 1
                  && r.value.endLine == (if endVerse.Some? && endVerse.value != 0 then Some(endVerse.value - 1) else None)
                  && r.value.altText == (if altText != "" then altText
                                         else DefaultAltText(book, chapter, startVerse, endVerse)))
  {
    var t := FormattedTail(chapter, startVerse, endVerse, altText);
    FormattedTailMatches(chapter, startVerse, endVerse, altText);
    assert DecimalValue(t.chapter) == chapter;
    assert DecimalValue(t.startVerse) == startVerse;
    assert EndVerseValue(t.endVerse) == endVerse;
    assert PresentVerse(endVerse).Some? <==> endVerse.Some? && endVerse.value != 0;
    ReadMatchFields(book, t, bibleFolder);
  }

  /** What `ReadMatch` makes of a trimmed book name and any well-formed tail. */
  lemma ReadMatchFields(book: string, t: Tail, bibleFolder: string)
    requires IsTrimmed(book) && WellFormedTail(t)
    ensures var path := ChapterFileName(book, DecimalValue(t.chapter), bibleFolder);
            var r := ReadMatch(ReferenceMatch(book, t), bibleFolder);
            var endVerse := EndVerseValue(t.endVerse);
            && (r.None? <==> path.None?)
            && (r.Some? ==>
                  && r.value.note == path.value
                  && r.value.startLine == DecimalValue(t.startVerse) - 1
                  && r.value.endLine == (if PresentVerse(endVerse).Some? then Some(endVerse.value - 1) else None)
                  && r.value.altText == (if t.rest != "" then t.rest
                                         else DefaultAltText(book, DecimalValue(t.chapter),
                                                             DecimalValue(t.startVerse), endVerse)))
  {
    TrimOfTrimmed(book);
  }

  /**
   * Parsing any reference the pattern reads as `book` followed by tail `t`:
   * the spaces before the chapter may be any whitespace run, the numbers may
   * carry leading zeros, and the alt text may follow the start or end verse
   * with or without a pipe.  The note is the book's chapter path, the lines
   * are the `parseInt` values minus one (end verse 0 dropped), and the alt
   * text is group 5 when it is non-empty and the default text otherwise.
   */
  lemma ParseReference(book: string, t: Tail, bibleFolder: string)
    requires book != [] && IsTrimmed(book) && NoPipe(book) && ':' !in book
    requires WellFormedTail(t) && GreedyTail(t) && IsTrimmed(book + TailText(t))
    ensures var path := ChapterFileName(book, DecimalValue(t.chapter), bibleFolder);
            var r := ParseBibleReference(book + TailText(t), bibleFolder);
            var endVerse := EndVerseValue(t.endVerse);
            && (r.None? <==> path.None?)
            && (r.Some? ==>
                  && r.value.note == path.value
                  && r.value.startLine == DecimalValue(t.startVerse) - 1
                  && r.value.endLine == (if PresentVerse(endVerse).Some? then Some(endVerse.value - 1) else None)
                  && r.value.altText == (if t.rest != "" then t.rest
                                         else DefaultAltText(book, DecimalValue(t.chapter),
                                                             DecimalValue(t.startVerse), endVerse)))
  {
    TrimOfTrimmed(book + TailText(t));
    MatchReferenceOfReference(book, t);
    ReadMatchFields(book, t, bibleFolder);
  }

  /**
   * What `parseBibleReference` returns for any link text.  Nothing when the
   * pattern does not match the trimmed text; otherwise group 1 is a
   * non-empty trimmed book name, and the result is the one `ParseReference`
   * describes for that name and the matched groups.  A successful parse
   * also has a colon-free book name, so the match is the only way of reading
   * the text as a book followed by a greedy tail.
   */
  lemma ParseLinkText(href: string, bibleFolder: string)
    ensures MatchReference(Trim(href)).None? ==> ParseBibleReference(href, bibleFolder).None?
    ensures MatchReference(Trim(href)).Some? ==>
              var m := MatchReference(Trim(href)).value;
              var t := m.tail;
              var path := ChapterFileName(m.book, DecimalValue(t.chapter), bibleFolder);
              var r := ParseBibleReference(href, bibleFolder);
              var endVerse := EndVerseValue(t.endVerse);
              && m.book != [] && IsTrimmed(m.book)
              && (r.None? <==> path.None?)
              && (r.Some? ==>
                    && ':' !in m.book
                    && r.value.note == path.value
                    && r.value.startLine == DecimalValue(t.startVerse) - 1
                    && r.value.endLine == (if PresentVerse(endVerse).Some? then Some(endVerse.value - 1) else None)
                    && r.value.altText == (if t.rest != "" then t.rest
                                           else DefaultAltText(m.book, DecimalValue(t.chapter),
                                                               DecimalValue(t.startVerse), endVerse)))
  {
    var m := MatchReference(Trim(href));
    if m.Some? {
      assert ParseBibleReference(href, bibleFolder) == ReadMatch(m.value, bibleFolder);
      MatchedBookTrimmed(Trim(href));
      ReadMatchFields(m.value.book, m.value.tail, bibleFolder);
      ReadBookHasNoColon(m.value, bibleFolder);
    }
  }

  /** A book name whose chapter path is found is one the tables know, so it holds no colon. */
  lemma ReadBookHasNoColon(m: ReferenceMatch, bibleFolder: string)
    requires WellFormedTail(m.tail) && IsTrimmed(m.book)
    ensures ReadMatch(m, bibleFolder).Some? ==> ':' !in m.book
  {
    if ReadMatch(m, bibleFolder).Some? {
      TrimOfTrimmed(m.book);
      assert BookIndex(CanonicalName(m.book)).Some?;
      KnownBookHasNoColon(m.book);
    }
  }

  /** The default alt text is the reference written out without alt text, an end verse of 0 left off. */
  lemma DefaultAltTextIsFormatted(book: string, chapter: nat, startVerse: nat, endVerse: Option<nat>)
    ensures DefaultAltText(book, chapter, startVerse, endVerse)
            == FormatReference(book, chapter, startVerse, PresentVerse(endVerse), "")
  {
    var c := NatToString(chapter);
    var sv := NatToString(startVerse);
    var suffix := if PresentVerse(endVerse).Some? then "-" + NatToString(endVerse.value) else "";
    assert book + " " + c + ":" + sv + suffix == book + (" " + (c + (":" + (sv + (suffix + "")))));
  }

  /**
   * Parsing the default alt text of a reference gives back the same note and
   * lines, and the same text as its alt text.
   */
  lemma ParseDefaultAltText(book: string, chapter: nat, startVerse: nat, endVerse: Option<nat>, bibleFolder: string)
    requires book != [] && IsTrimmed(book) && NoPipe(book) && ':' !in book
    ensures var alt := DefaultAltText(book, chapter, startVerse, endVerse);
            var path := ChapterFileName(book, chapter, bibleFolder);
            var r := ParseBibleReference(alt, bibleFolder);
            && (r.None? <==> path.None?)
            && (r.Some? ==>
                  && r.value.note == path.value
                  && r.value.startLine == startVerse - 1
                  && r.value.endLine == (if PresentVerse(endVerse).Some? then Some(endVerse.value - 1) else None)
                  && r.value.altText == alt)
  {
    DefaultAltTextIsFormatted(book, chapter, startVerse, endVerse);
    ParseFormattedReference(book, chapter, startVerse, PresentVerse(endVerse), "", bibleFolder);
  }

  /** An end verse of 0 is read as no end verse at all. */
  lemma ZeroEndVerseIsAbsent(book: string, chapter: nat, startVerse: nat, altText: string, bibleFolder: string)
    requires book != [] && IsTrimmed(book) && NoPipe(book) && ':' !in book
    requires NoLineTerminator(altText) && (altText == [] || !IsSpace(altText[|altText| - 1]))
    ensures ParseBibleReference(FormatReference(book, chapter, startVerse, Some(0), altText), bibleFolder)
            == ParseBibleReference(FormatReference(book, chapter, startVerse, None, altText), bibleFolder)
  {
    ParseFormattedReference(book, chapter, startVerse, Some(0), altText, bibleFolder);
    ParseFormattedReference(book, chapter, startVerse, None, altText, bibleFolder);
  }
}
