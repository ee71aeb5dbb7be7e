/**
 * `checkLink`: read the reference out of a rendered link element, choose the
 * text to display and attach the chapter file found in the vault.
 */
module LinkCheck {
  import opened Wrappers
  import opened JsStrings
  import opened ChapterFiles
  import opened BibleReference

  /** The two things `checkLink` reads from a link element: its attributes and its visible text. */
  datatype LinkElement = LinkElement(attributes: map<string, string>, innerText: string)

  /** `getAttribute(name)`: the value, or `null` when the attribute is absent. */
  function GetAttribute(el: LinkElement, name: string): (r: Option<string>)
    ensures r.Some? <==> name in el.attributes
    ensures r.Some? ==> r.value == el.attributes[name]
  {
    if name in el.attributes then Some(el.attributes[name]) else None
  }

  /**
   * The text a link shows, by priority: for an ordinary link, its visible
   * text unless that mentions the note; then the `alt` attribute unless
   * that mentions the note; then the text the parse chose.
   */
  function DisplayedText(parsedAlt: string, note: string, alt: Option<string>, innerText: string, isEmbed: bool): (r: string)
    ensures r == parsedAlt || !Contains(r, note)
    ensures isEmbed ==> r == parsedAlt || (alt.Some? && r == alt.value)
    ensures r == parsedAlt || r == innerText || (alt.Some? && r == alt.value)
  {
    if !isEmbed && !Contains(innerText, note) then innerText
    else if alt.Some? && !Contains(alt.value, note) then alt.value
    else parsedAlt
  }

  /**
   * `checkLink`: `None` when the link has no `hrefField` attribute, when its
   * value is not a reference to a known book, or when no vault file holds
   * the chapter; otherwise the parsed link with its display text chosen and
   * its file attached.
   */
  method CheckLink(files: seq<VaultFile>, el: LinkElement, bibleFolder: string, isEmbed: bool, hrefField: string)
    returns (r: Option<ParsedLink>)
    ensures hrefField !in el.attributes ==> r.None?
    ensures hrefField in el.attributes ==>
              var parsed := ParseBibleReference(el.attributes[hrefField], bibleFolder);
              && (r.Some? <==> parsed.Some? && FindBibleChapterFile(files, parsed.value.note).Some?)
              && (r.Some? ==>
                    && r.value.note == parsed.value.note
                    && r.value.startLine == parsed.value.startLine
                    && r.value.endLine == parsed.value.endLine
                    && r.value.file == FindBibleChapterFile(files, parsed.value.note)
                    && r.value.altText == DisplayedText(parsed.value.altText, parsed.value.note,
                                                       GetAttribute(el, "alt"), el.innerText, isEmbed))
  {
    var href := GetAttribute(el, hrefField);
    if href.None? {
      return None;
    }
    var res := CheckLinkText(href.value, bibleFolder);
    var alt := GetAttribute(el, "alt");
    if res.None? {
      return None;
    }
    var link := res.value;
    if alt.Some? && !Contains(alt.value, link.note) {
      link := link.(altText := alt.value);
    }
    if !isEmbed && !Contains(el.innerText, link.note) {
      link := link.(altText := el.innerText);
    }
    var file := FindBibleChapterFile(files, link.note);
    if file.None? {
      return None;
    }
    link := link.(file := file);
    return Some(link);
  }
}
