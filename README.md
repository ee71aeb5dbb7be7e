# obsidian-embed-line-range: Bible-reference links, modelled in Dafny

This project models the link pipeline of the Obsidian plugin
"obsidian-embed-line-range" as the repository implements it in
`src/utils.ts` and `src/embeds.ts`. The plugin reads Bible references such as
`I Peter 1:3-5|my text`. Each reference is handled in five steps:

- The regular expression `^([^|]*?)\s+(\d+):(\d+)(?:-(\d+))?\|?(.*)?$` matches the
  trimmed link text.
- The book name goes through an alias table (`1 Peter` becomes `I Peter`), and
  the canonical book index (1 to 66) builds the chapter note's path
  `[<bibleFolder>/]<index> <book>/Chapter <NN>`.
- Verses become 0-based line numbers.
- `checkLink` chooses the text to display and looks the note up among the vault's
  markdown files. It tries the exact path first, then the basename, then a path
  suffix.
- For an embed with a verse range, `replaceEmbed` shows a heading, a link to the
  chapter and the selected lines of the chapter file.

Modules, leaves first:

- `Wrappers`: the `Option` type.
- `JsStrings`: the JavaScript string primitives the code relies on. These are
  `trim`, `\s`/`\d`/`.`, `parseInt` and `toString` on digit strings, `padStart`,
  `includes`, `endsWith`, and `split`/`join` on one separator character.
- `ReferenceRegex`: a matcher for the reference pattern that follows JavaScript's
  backtracking semantics. Group 1 is lazy, so the shortest book name that admits
  a match wins; every later quantifier is greedy. It is proved sound (a match
  reassembles the input and every group fits its sub-pattern) and complete (it
  matches whenever the input has the pattern's shape). It is also proved to
  return the book name and groups a written-out reference was built from.
- `BibleBooks`: the alias table, the book-index table, and the chapter path
  (`getBibleChapterFileName`, `getBibleBookIndex`).
- `ChapterFiles`: `findBibleChapterFile`, a three-tier first-match search.
- `BibleReference`: `parseBibleReference` and `checkLinkText`.
- `LinkCheck`: `checkLink`, a method that updates a local copy of the parsed link
  the way the source updates the object in place.
- `Embeds`: the guard and the line extraction of `replaceEmbed`, including
  JavaScript's `slice` semantics for the computed indices.

Every link is read as a Bible reference. A range is always inclusive and is
written with `-`. `replaceEmbed` clamps the start line only from below
(`max(0, startLine)`), and `slice` returns nothing past the end of the file.

## Model

| member | source | states |
|---|---|---|
| JsStrings.Trim | src/utils.ts:20 | `trim()` leaves a string that neither starts nor ends with whitespace, and it is a contiguous piece of the input with only whitespace removed on either side |
| JsStrings.TrimOfTrimmed | src/utils.ts:55 | trimming an already-trimmed name again (`getBibleChapterFileName` re-trims the trimmed book name) changes nothing |
| JsStrings.LeadingSpace | src/utils.ts:20 | the length of the whitespace run `trim()` removes at the front: all whitespace, followed by a non-space or the end |
| JsStrings.TrailingSpaceFrom | src/utils.ts:20 | where the whitespace run `trim()` removes at the back begins: all whitespace after it, a non-space or the front before it |
| JsStrings.DecimalValue | src/utils.ts:27-29 | `parseInt(s, 10)` on a digit string: a value below 10 to the number of digits, and the digit's own value for one digit |
| JsStrings.Contains | src/utils.ts:136-140 | `includes`: true only if the substring fits, always true for the empty substring and for the string itself |
| JsStrings.EndsWith | src/utils.ts:181 | `endsWith`: when it holds, the suffix occurs at the last possible position; the empty suffix always ends a string |
| JsStrings.Join | src/embeds.ts:69 | `join("\n")`: empty for no lines, otherwise the first line comes first, followed by the separator when more lines follow |
| JsStrings.NatToString | src/utils.ts:43 | `toString` of a number gives decimal digits with no leading zero (except `0` itself) that `parseInt` reads back as the same number |
| JsStrings.NatToStringOfDecimal | src/utils.ts:27-29 | for a digit string without leading zeros, `toString(parseInt(s))` gives back `s` |
| JsStrings.LeadingZerosValue | src/utils.ts:27-29 | `parseInt` ignores leading zeros: `07` and `7` give the same chapter or verse number |
| JsStrings.LeadingNonZeroPositive | src/utils.ts:27-29 | a digit string whose first digit is not `0` has a positive value |
| JsStrings.PadStart | src/utils.ts:87 | `padStart(width, fill)` is as long as `s` or `width`, whichever is more, ends with `s`, and is `fill` before it |
| JsStrings.ZeroPaddedValue | src/utils.ts:87 | the zero-padded chapter number has at least the width asked for, is all digits, and keeps the chapter's value |
| JsStrings.ContainsIffOccurs | src/utils.ts:136 | `includes` holds exactly when the substring occurs at some position |
| JsStrings.Split | src/embeds.ts:56 | `split("\n")` gives at least one piece, and no piece contains the separator |
| JsStrings.JoinSplit | src/embeds.ts:56 | joining the lines of a split with the same separator gives back the file's text |
| JsStrings.SplitJoin | src/embeds.ts:56 | splitting a join of separator-free lines gives back the same lines |
| JsStrings.SplitPrefix | src/embeds.ts:56 | a separator-free first line followed by the separator splits into that line and the split of the rest |
| JsStrings.SplitNoSep | src/embeds.ts:56 | a text without the separator is a single line |
| ReferenceRegex.Span | src/utils.ts:19 | a greedy `\s+` / `\d+` run: the longest prefix of the class, with what follows it not starting with that class |
| ReferenceRegex.SpanOf | src/utils.ts:19 | a run of the class followed by a non-member is split exactly there |
| ReferenceRegex.MatchEndVerse | src/utils.ts:19 | `(?:-(\d+))?` is taken exactly when a dash and a digit come next, and then takes all the digits |
| ReferenceRegex.MatchPipe | src/utils.ts:19 | the optional pipe is taken exactly when a pipe comes next |
| ReferenceRegex.MatchTail | src/utils.ts:19 | a match of the part after group 1 covers the whole text, every group fits its sub-pattern, and all quantifiers took as much as they could |
| ReferenceRegex.MatchTailComplete | src/utils.ts:19 | whenever a text can be split as the pattern's tail, the matcher succeeds |
| ReferenceRegex.MatchTailOfGreedy | src/utils.ts:19 | on the text of a greedy tail the matcher returns exactly that tail, so the greedy decomposition is unique |
| ReferenceRegex.MatchFrom | src/utils.ts:19 | the lazy group 1: the book name is pipe-free, the rest matches the tail, and no shorter book name would have matched |
| ReferenceRegex.MatchReference | src/utils.ts:19-24 | `bibleRegex.exec`: on success, book name plus tail text is the input, the book is pipe-free, and the tail is well formed and greedy; otherwise `null` |
| ReferenceRegex.MatchFromReaches | src/utils.ts:19 | if a tail matches after a pipe-free prefix of length `j`, the lazy search succeeds with a book name no longer than `j` |
| ReferenceRegex.MatchReferenceLeast | src/utils.ts:19-24 | `exec` matches every text that splits into a pipe-free book and a well-formed tail, with the shortest possible book name |
| ReferenceRegex.NoTailInsideBook | src/utils.ts:19 | no tail can start inside a colon-free book name that ends in a non-space |
| ReferenceRegex.MatchFromExact | src/utils.ts:19 | the lazy group stops at the first position where the tail matches, and gives that book name and tail |
| ReferenceRegex.MatchReferenceOfReference | src/utils.ts:19-24 | a reference written as a non-empty book name free of colons and pipes and ending in a non-space, then spaces, `chapter:verse`, an optional `-verse`, and an optional pipe with alt text (each taken whenever it can be), is matched as exactly that book and those groups |
| ReferenceRegex.SpaceBeforeTail | src/utils.ts:19 | a whitespace character in front of a tail's text gives again a tail's text, with one more character in its `\s+` run |
| ReferenceRegex.BookEndsInNonSpace | src/utils.ts:19 | the lazy group 1 never ends in whitespace, because the rest of the pattern would already match one character earlier |
| ReferenceRegex.MatchedBookTrimmed | src/utils.ts:18-19 | on a trimmed link text, group 1 is a non-empty book name with no whitespace at either end |
| BibleBooks.BookAlias | src/utils.ts:58-76 | the alias table: every alias maps to a different name that the index table knows |
| BibleBooks.BookIndex | src/utils.ts:97-118 | `getBibleBookIndex`: every index the table gives lies between 1 and 66 |
| BibleBooks.BookAtPosition | src/utils.ts:99-115 | the reverse table, one canonical name for each position 1 to 66 and none elsewhere |
| BibleBooks.BookIndexInverse | src/utils.ts:99-115 | the index table puts every book at its own position in the canonical order |
| BibleBooks.KnownBookHasNoColon | src/utils.ts:59-114 | no alias key and no indexed book name contains a colon |
| BibleBooks.BookIndexInjective | src/utils.ts:99-115 | no two books share an index |
| BibleBooks.LawAndHistoryInverse | src/utils.ts:100-103 | books 1 to 17 sit at their own positions |
| BibleBooks.PoetryAndProphetsInverse | src/utils.ts:103-108 | books 18 to 39 sit at their own positions |
| BibleBooks.GospelsToPaulInverse | src/utils.ts:108-112 | books 40 to 57 sit at their own positions |
| BibleBooks.HebrewsToRevelationInverse | src/utils.ts:112-114 | books 58 to 66 sit at their own positions |
| BibleBooks.CanonicalName | src/utils.ts:78 | the alias lookup falling back to the name: a name that is not an alias is kept unchanged |
| BibleBooks.CanonicalOfAlias | src/utils.ts:78 | an alias is replaced by its canonical name |
| BibleBooks.AliasTargetsAreIndexed | src/utils.ts:58-81 | every alias leads to a book the index table knows |
| BibleBooks.CanonicalNameIdempotent | src/utils.ts:58-78 | canonical names are not aliases themselves, so normalising twice is normalising once |
| BibleBooks.AliasKeysStartWithDigit | src/utils.ts:59-75 | helper for `CanonicalNameIdempotent`: every alias starts with a digit |
| BibleBooks.AliasKeysStartWithDigitOnly | src/utils.ts:59-75 | helper for `CanonicalNameIdempotent`: no name starting with `I` is an alias |
| BibleBooks.AliasTargetsStartWithI | src/utils.ts:59-75 | helper for `CanonicalNameIdempotent` and `AliasTargetsAreTrimmed`: every alias target starts with `I` |
| BibleBooks.AliasTargetsEnd | src/utils.ts:59-75 | helper for `AliasTargetsAreTrimmed`: every alias target ends in a lower-case letter |
| BibleBooks.AliasTargetsAreTrimmed | src/utils.ts:59-75 | alias targets carry no surrounding whitespace |
| BibleBooks.CanonicalOfTarget | src/utils.ts:55-78 | an alias target, trimmed and normalised, stays itself |
| BibleBooks.ChapterNumber | src/utils.ts:87 | the chapter as written in the path has at least two digits and reads back as the chapter, and is unpadded from three digits on |
| BibleBooks.ChapterFileName | src/utils.ts:53-95 | `getBibleChapterFileName` succeeds exactly when the trimmed, de-aliased name has a book index, and then gives a non-empty path |
| BibleBooks.BookChapterFile | src/utils.ts:81-94 | the path exists exactly for indexed books and is never empty |
| BibleBooks.ChapterPathShape | src/utils.ts:86-94 | the path is `<index> <book>/Chapter <NN>`, prefixed by `<bibleFolder>/` exactly when the folder setting is non-empty |
| BibleBooks.ChapterFileNameOfAlias | src/utils.ts:55-94 | an alias always has a chapter path, and it is the path of the book it stands for |
| ChapterFiles.Meets | src/utils.ts:173-181 | the three `find` predicates (exact path, basename, path suffix); a path match needs a path at least as long as the name plus `.md` |
| ChapterFiles.FirstMeeting | src/utils.ts:173 | `files.find`: the index of the first file meeting the criterion, or none when no file does |
| ChapterFiles.Find | src/utils.ts:173-182 | the file `find` returns is the file at that first index |
| ChapterFiles.FindBibleChapterFile | src/utils.ts:168-185 | the first exact-path match wins, then the first basename match, then the first path-suffix match; `null` exactly when no file meets any of the three |
| ChapterFiles.FoundFileNamesChapter | src/utils.ts:168-185 | a found file is one of the vault's files, and its basename or its path names the chapter |
| ChapterFiles.ExactPathEndsWithName | src/utils.ts:173-181 | an exact-path match would also be found by the path-suffix search |
| BibleReference.PresentVerse | src/utils.ts:41-43 | `endVerse ? … : …`: an end verse is present exactly when it was given and is not 0 |
| BibleReference.EndVerseValue | src/utils.ts:29 | the end verse is parsed exactly when group 4 participated, with `parseInt`'s value |
| BibleReference.DefaultAltText | src/utils.ts:43 | the default alt text starts with the book name followed by a space |
| BibleReference.ParseBibleReference | src/utils.ts:17-51 | a parse succeeds only on text the pattern matches, and then has a non-empty note, a start line of at least -1, a non-negative end line if any, a non-empty alt text and no file yet; the field values themselves are stated by `ParseLinkText` for any text and by `ParseReference` for a text written out as book and tail |
| BibleReference.ReadMatch | src/utils.ts:26-50 | after a match, the parse fails exactly when the book has no chapter path |
| BibleReference.CheckLinkText | src/utils.ts:12-15 | `checkLinkText` reads every link text as a Bible reference |
| BibleReference.ParseFailsOnlyForUnknownBook | src/utils.ts:22-37 | once the pattern matches, the parse fails exactly when the trimmed, de-aliased book name is not one of the 66 |
| BibleReference.FormatAsTail | src/utils.ts:19 | a written-out reference is its book name followed by the text of its pattern tail |
| BibleReference.FormattedTailMatches | src/utils.ts:19 | the tail of a written-out reference is well formed and greedy |
| BibleReference.FormattedIsTrimmed | src/utils.ts:20 | a written-out reference with a trimmed book and alt text is unchanged by `trim()` |
| BibleReference.FormattedMatch | src/utils.ts:19-20 | the pattern splits a written-out reference back into its book and its groups |
| BibleReference.ReadFormattedTail | src/utils.ts:26-50 | reading those groups gives the book's chapter note, lines `start - 1` and `end - 1` (end 0 dropped), and the alt text or the default one |
| BibleReference.ParseFormattedReference | src/utils.ts:17-51 | round trip, for a non-empty trimmed book name free of colons and pipes and an alt text with no line terminator and no trailing whitespace: parsing `book chapter:start`, with an optional `-end` and an optional pipe and alt text, gives the book's chapter note, start line `start - 1`, end line `end - 1` unless the end is 0, and the alt text or `book chapter:start[-end]`; it fails exactly when the book is unknown |
| BibleReference.ReadMatchFields | src/utils.ts:26-50 | for a trimmed book and any well-formed tail: no result exactly when the book has no chapter path, otherwise that path as note, start verse minus 1, end verse minus 1 unless absent or 0, and group 5 or the default alt text |
| BibleReference.ParseLinkText | src/utils.ts:17-51 | for any link text: no result when the pattern does not match the trimmed text; otherwise group 1 is a non-empty trimmed book name, the parse fails exactly when that book has no chapter path, and a successful parse has a colon-free book name, the path as note, start verse minus 1, end verse minus 1 unless absent or 0, and group 5 or the default alt text |
| BibleReference.ReadBookHasNoColon | src/utils.ts:26-37 | a book name whose chapter path is found holds no colon |
| BibleReference.DefaultAltTextIsFormatted | src/utils.ts:43 | the default alt text is the reference written out as `book chapter:start-end` with no alt text, the end left off when it is absent or 0 |
| BibleReference.ParseDefaultAltText | src/utils.ts:17-51 | parsing a reference's default alt text again gives the same note, the same lines and the same text as alt text |
| BibleReference.ParseReference | src/utils.ts:17-51 | for a trimmed input written as a non-empty, trimmed, colon- and pipe-free book name followed by a greedy tail (any whitespace run before the chapter, leading zeros, alt text with or without a pipe, a bare trailing pipe): the parse fails exactly when the book has no chapter path; otherwise the note is that path, the start line is `parseInt` of the start verse minus 1, the end line is the end verse minus 1 unless it is absent or 0, and the alt text is group 5 when non-empty, else the default text |
| BibleReference.ZeroEndVerseIsAbsent | src/utils.ts:29-43 | a reference with end verse 0 parses exactly like one with no end verse |
| LinkCheck.GetAttribute | src/utils.ts:121 | `getAttribute` gives the attribute's value when it is present and `null` otherwise |
| LinkCheck.DisplayedText | src/utils.ts:135-142 | the displayed text is the parsed one or one that does not mention the note; for an embed it is never the visible text unless that is also the `alt` attribute or the parsed text |
| LinkCheck.CheckLink | src/utils.ts:120-153 | `null` without the href attribute, on a failed parse, or when no file is found; otherwise the parsed note and lines, the found file, and the display text by priority: visible text (ordinary links), then `alt`, then the parsed text, each only when it does not mention the note |
| Embeds.SliceIndex | src/embeds.ts:62 | where `slice` puts an index: clamped to the length, and a negative one counted from the end |
| Embeds.JsSlice | src/embeds.ts:62 | `slice(start, end)`: the elements from the start index on, as many as lie before the end index |
| Embeds.StartIndex | src/embeds.ts:59 | `max(0, startLine)`: never negative, and the start line itself when that is not negative |
| Embeds.EndIndex | src/embeds.ts:60 | one past the end line but not past the line count, or one past the start with no end line |
| Embeds.EmbeddedLines | src/embeds.ts:56-62 | the lines shown are consecutive lines of the file from the start index on; with an end line they run to the end line or the end of the file, and without one there is at most one line |
| Embeds.EmbeddedRange | src/embeds.ts:56-62 | a range inside the file gives exactly `endLine - startLine + 1` lines, the i-th being line `startLine + i` |
| Embeds.EmbeddedEmpty | src/embeds.ts:59-62 | nothing is shown when the start index is past the end index or past the end of the file |
| Embeds.EmbeddedWholeChapter | src/embeds.ts:56-62 | a range covering the whole file shows every line |
| Embeds.EmbeddedWholeText | src/embeds.ts:56-69 | rendering a range that covers the whole file gives back the file's text |
| Embeds.ReplaceEmbed | src/embeds.ts:6-70 | the embed is replaced only when `checkLink` (as an embed, on `src`) succeeds with an end line and a file; the view then has the display text as heading, the found file, the start line as scroll target, and the selected lines joined with `\n` as body |

## Left out

- `main.ts`, the settings tab (`src/settings.ts`), `src/markdownPostProcessor.ts` and `src/livePreviewDisplayView.ts` are host glue and editor UI and are not part of this model. The only setting read by the core, `bibleFolder`, is a parameter.
- `postProcessorUpdate` (src/utils.ts:155-166) only triggers a workspace re-render and is not modelled.
- In `replaceEmbed`, the DOM work is not modelled: removing child nodes, the `isMarkdownPost` class changes, creating elements, `setIcon`, the click handler and `MarkdownRenderer.renderMarkdown`. The model returns the view those steps would build.
- `vault.cachedRead` is asynchronous I/O. It is a function parameter from file to text. `app.vault.getMarkdownFiles()` is a list parameter. Each file keeps only its path and basename.
- A DOM element keeps only its attributes (a map) and its `innerText`.
- Whitespace for `\s` and `trim()` is the ASCII set (space, tab, line feed, vertical tab, form feed, carriage return). The Unicode spaces JavaScript also counts are not modelled.
- `parseInt` and `toString` are exact on unbounded naturals. JavaScript loses precision on digit strings past 2^53, and from 10^21 on `Number.prototype.toString` writes exponent notation (`1e+21`), so the chapter path (src/utils.ts:87) and the default alt text (src/utils.ts:43) take another form there; the model does not capture either.
- The alias and index tables are lookups by exact string. JavaScript object lookups would also find inherited keys such as `constructor`. For those keys the source still ends in `null`, so the results agree.
- Embeds.EmbeddedEmpty: stated for end lines of at least 0, the only ones a parse produces. With a negative end index, `slice` counts from the end of the file.
- Embeds.EmbeddedLines: its line-count clause is stated for end lines of at least -1, for the same reason.
