/**
 * `replaceEmbed`: an embedded reference with a verse range is replaced by a
 * heading, a link back to the chapter and the verses' lines.  The DOM
 * rewriting and rendering are not modelled; the result is the view the
 * embed would show.  Reading the file (`vault.cachedRead`) is a parameter.
 */
module Embeds {
  import opened Wrappers
  import opened JsStrings
  import opened ChapterFiles
  import opened BibleReference
  import opened LinkCheck

  /** `Array.prototype.slice`: where an index lands; negative indices count from the end. */
  function SliceIndex(i: int, len: nat): (k: nat)
    ensures k <= len
    ensures 0 <= i <= len ==> k == i
    ensures i > len ==> k == len
    ensures i < 0 ==> k == (if len + i < 0 then 0 else len + i)
  {
    if i < 0 then (if len + i < 0 then 0 else len + i)
    else if i > len then len
    else i
  }

  /** `s.slice(start, end)`: the elements from `start` up to, not including, `end`, both clamped. */
  function JsSlice<T>(s: seq<T>, start: int, end: int): (r: seq<T>)
    ensures |r| <= |s|
    ensures var lo := SliceIndex(start, |s|);
            var hi := SliceIndex(end, |s|);
            |r| == (if lo < hi then hi - lo else 0)
    ensures forall k :: 0 <= k < |r| ==> SliceIndex(start, |s|) + k < |s| && r[k] == s[SliceIndex(start, |s|) + k]
  {
    var lo := SliceIndex(start, |s|);
    var hi := SliceIndex(end, |s|);
    if lo < hi then s[lo..hi] else []
  }

  /** `Math.max(0, startLine)`: the first line shown, never negative. */
  function StartIndex(startLine: int): (i: nat)
    ensures i >= startLine
    ensures startLine >= 0 ==> i == startLine
    ensures startLine < 0 ==> i == 0
  {
    if startLine < 0 then 0 else startLine
  }

  /**
   * The exclusive end: one past the end line, but not past the file, or one
   * past the start when there is no end line.
   */
  function EndIndex(lineCount: nat, startIdx: nat, endLine: Option<int>): (j: int)
    ensures endLine.Some? ==> j <= lineCount && j <= endLine.value + 1
    ensures endLine.Some? && endLine.value + 1 <= lineCount ==> j == endLine.value + 1
    ensures endLine.Some? && endLine.value + 1 > lineCount ==> j == lineCount
    ensures endLine.None? ==> j == startIdx + 1
  {
    if endLine.Some? then (if lineCount < endLine.value + 1 then lineCount else endLine.value + 1)
    else startIdx + 1
  }

  /** The lines of a chapter an embed shows for `startLine` .. `endLine`. */
  function EmbeddedLines(lines: seq<string>, startLine: int, endLine: Option<int>): (r: seq<string>)
    ensures |r| <= |lines|
    ensures forall k :: 0 <= k < |r| ==>
              StartIndex(startLine) + k < |lines| && r[k] == lines[StartIndex(startLine) + k]
    ensures endLine.Some? && endLine.value >= -1 ==>
              var last := if endLine.value < |lines| then endLine.value else |lines| - 1;
              |r| == (if StartIndex(startLine) <= last then last - StartIndex(startLine) + 1 else 0)
    ensures endLine.None? ==> |r| == (if StartIndex(startLine) < |lines| then 1 else 0)
  {
    var startIdx := StartIndex(startLine);
    JsSlice(lines, startIdx, EndIndex(|lines|, startIdx, endLine))
  }

  /**
   * A range inside the chapter gives exactly its lines: `endLine - startLine + 1`
   * of them, the i-th being line `startLine + i`.
   */
  lemma EmbeddedRange(lines: seq<string>, startLine: int, endLine: int)
    requires 0 <= startLine <= endLine < |lines|
    ensures var r := EmbeddedLines(lines, startLine, Some(endLine));
            && |r| == endLine - startLine + 1
            && (forall k :: 0 <= k < |r| ==> r[k] == lines[startLine + k])
            && r == lines[startLine..endLine + 1]
  {
    var r := EmbeddedLines(lines, startLine, Some(endLine));
    var want := lines[startLine..endLine + 1];
    forall k | 0 <= k < |r| ensures r[k] == want[k] {
    }
  }

  /**
   * Nothing is shown when the start is past the end of the range or of the
   * chapter (for end lines of at least 0, which is all a parse produces).
   */
  lemma EmbeddedEmpty(lines: seq<string>, startLine: int, endLine: Option<int>)
    requires endLine.Some? ==> endLine.value >= 0
    requires StartIndex(startLine) >= |lines|
             || StartIndex(startLine) >= EndIndex(|lines|, StartIndex(startLine), endLine)
    ensures EmbeddedLines(lines, startLine, endLine) == []
  {
  }

  /** A range that covers the whole chapter shows every line. */
  lemma EmbeddedWholeChapter(lines: seq<string>, startLine: int, endLine: int)
    requires startLine <= 0 && endLine + 1 >= |lines|
    ensures EmbeddedLines(lines, startLine, Some(endLine)) == lines
  {
    var r := EmbeddedLines(lines, startLine, Some(endLine));
    assert |r| == |lines|;
    forall k | 0 <= k < |r| ensures r[k] == lines[k] {
    }
  }

  /** Rejoining the whole chapter's lines gives back the file's text unchanged. */
  lemma EmbeddedWholeText(content: string, startLine: int, endLine: int)
    requires startLine <= 0 && endLine + 1 >= |Split(content, '\n')|
    ensures Join(EmbeddedLines(Split(content, '\n'), startLine, Some(endLine)), '\n') == content
  {
    EmbeddedWholeChapter(Split(content, '\n'), startLine, endLine);
    JoinSplit(content, '\n');
  }

  /** What a replaced embed shows: a heading, the file its link opens at `scroll`, and the text of the verses. */
  datatype EmbedView = EmbedView(heading: string, file: VaultFile, scroll: int, body: string)

  /**
   * `replaceEmbed`: check the embed's `src` as an embed; only a reference
   * with an end verse whose chapter file was found is replaced, by the
   * checked link's text, the file, the start line and the selected lines of
   * the file's text.
   */
  method ReplaceEmbed(files: seq<VaultFile>, embed: LinkElement, bibleFolder: string, cachedRead: VaultFile -> string)
    returns (r: Option<EmbedView>)
    ensures "src" !in embed.attributes ==> r.None?
    ensures "src" in embed.attributes ==>
              var parsed := ParseBibleReference(embed.attributes["src"], bibleFolder);
              && (r.Some? <==> parsed.Some? && parsed.value.endLine.Some?
                                && FindBibleChapterFile(files, parsed.value.note).Some?)
              && (r.Some? ==>
                    var file := FindBibleChapterFile(files, parsed.value.note).value;
                    && r.value.file == file
                    && r.value.heading == DisplayedText(parsed.value.altText, parsed.value.note,
                                                        GetAttribute(embed, "alt"), embed.innerText, true)
                    && r.value.scroll == parsed.value.startLine
                    && r.value.body == Join(EmbeddedLines(Split(cachedRead(file), '\n'),
                                                          parsed.value.startLine, parsed.value.endLine), '\n'))
  {
    var res := CheckLink(files, embed, bibleFolder, true, "src");
    var isLinkRange := res.Some? && res.value.endLine.Some?;
    var file := if res.Some? then res.value.file else None;
    if !(isLinkRange && file.Some?) {
      return None;
    }
    var fileContent := cachedRead(file.value);
    var lines := Split(fileContent, '\n');
    var startIdx := StartIndex(res.value.startLine);
    var endIdx := EndIndex(|lines|, startIdx, res.value.endLine);
    lines := JsSlice(lines, startIdx, endIdx);
    return Some(EmbedView(res.value.altText, file.value, res.value.startLine, Join(lines, '\n')));
  }
}
