/**
 * Book-name normalisation and the chapter-file path of a Bible reference
 * (`getBibleBookIndex` and `getBibleChapterFileName`).  The two object
 * literals of the source are lookup functions here, one `case` per property.
 * A name that is only a property inherited from `Object.prototype`
 * (`constructor`, `toString`, ...) ends in `null` in the source as well, so
 * such names simply fall into the default case.
 */
module BibleBooks {
  import opened Wrappers
  import opened JsStrings

  /** `bookAliases[name]`: the alternative spellings and their canonical book names. */
  function BookAlias(name: string): (r: Option<string>)
    ensures r.Some? ==> BookIndex(r.value).Some? && r.value != name
  {
    match name
    case "1 Peter" => Some("I Peter")
    case "2 Peter" => Some("II Peter")
    case "1 John" => Some("I John")
    case "2 John" => Some("II John")
    case "3 John" => Some("III John")
    case "1 Corinthians" => Some("I Corinthians")
    case "2 Corinthians" => Some("II Corinthians")
    case "1 Thessalonians" => Some("I Thessalonians")
    case "2 Thessalonians" => Some("II Thessalonians")
    case "1 Timothy" => Some("I Timothy")
    case "2 Timothy" => Some("II Timothy")
    case "1 Kings" => Some("I Kings")
    case "2 Kings" => Some("II Kings")
    case "1 Chronicles" => Some("I Chronicles")
    case "2 Chronicles" => Some("II Chronicles")
    case "1 Samuel" => Some("I Samuel")
    case "2 Samuel" => Some("II Samuel")
    case _ => None
  }

  /** `getBibleBookIndex`: the canonical names and their traditional order. */
  function BookIndex(name: string): (r: Option<nat>)
    ensures r.Some? ==> 1 <= r.value <= 66
  {
    match name
    case "Genesis" => Some(1)
    case "Exodus" => Some(2)
    case "Leviticus" => Some(3)
    case "Numbers" => Some(4)
    case "Deuteronomy" => Some(5)
    case "Joshua" => Some(6)
    case "Judges" => Some(7)
    case "Ruth" => Some(8)
    case "I Samuel" => Some(9)
    case "II Samuel" => Some(10)
    case "I Kings" => Some(11)
    case "II Kings" => Some(12)
    case "I Chronicles" => Some(13)
    case "II Chronicles" => Some(14)
    case "Ezra" => Some(15)
    case "Nehemiah" => Some(16)
    case "Esther" => Some(17)
    case "Job" => Some(18)
    case "Psalms" => Some(19)
    case "Proverbs" => Some(20)
    case "Ecclesiastes" => Some(21)
    case "Song of Solomon" => Some(22)
    case "Isaiah" => Some(23)
    case "Jeremiah" => Some(24)
    case "Lamentations" => Some(25)
    case "Ezekiel" => Some(26)
    case "Daniel" => Some(27)
    case "Hosea" => Some(28)
    case "Joel" => Some(29)
    case "Amos" => Some(30)
    case "Obadiah" => Some(31)
    case "Jonah" => Some(32)
    case "Micah" => Some(33)
    case "Nahum" => Some(34)
    case "Habakkuk" => Some(35)
    case "Zephaniah" => Some(36)
    case "Haggai" => Some(37)
    case "Zechariah" => Some(38)
    case "Malachi" => Some(39)
    case "Matthew" => Some(40)
    case "Mark" => Some(41)
    case "Luke" => Some(42)
    case "John" => Some(43)
    case "Acts" => Some(44)
    case "Romans" => Some(45)
    case "I Corinthians" => Some(46)
    case "II Corinthians" => Some(47)
    case "Galatians" => Some(48)
    case "Ephesians" => Some(49)
    case "Philippians" => Some(50)
    case "Colossians" => Some(51)
    case "I Thessalonians" => Some(52)
    case "II Thessalonians" => Some(53)
    case "I Timothy" => Some(54)
    case "II Timothy" => Some(55)
    case "Titus" => Some(56)
    case "Philemon" => Some(57)
    case "Hebrews" => Some(58)
    case "James" => Some(59)
    case "I Peter" => Some(60)
    case "II Peter" => Some(61)
    case "I John" => Some(62)
    case "II John" => Some(63)
    case "III John" => Some(64)
    case "Jude" => Some(65)
    case "Revelation" => Some(66)
    case _ => None
  }

  /** The canonical order read the other way: the book at each position 1 to 66. */
  function BookAtPosition(i: nat): (r: Option<string>)
    ensures r.Some? <==> 1 <= i <= 66
  {
    match i
    case 1 => Some("Genesis")
    case 2 => Some("Exodus")
    case 3 => Some("Leviticus")
    case 4 => Some("Numbers")
    case 5 => Some("Deuteronomy")
    case 6 => Some("Joshua")
    case 7 => Some("Judges")
    case 8 => Some("Ruth")
    case 9 => Some("I Samuel")
    case 10 => Some("II Samuel")
    case 11 => Some("I Kings")
    case 12 => Some("II Kings")
    case 13 => Some("I Chronicles")
    case 14 => Some("II Chronicles")
    case 15 => Some("Ezra")
    case 16 => Some("Nehemiah")
    case 17 => Some("Esther")
    case 18 => Some("Job")
    case 19 => Some("Psalms")
    case 20 => Some("Proverbs")
    case 21 => Some("Ecclesiastes")
    case 22 => Some("Song of Solomon")
    case 23 => Some("Isaiah")
    case 24 => Some("Jeremiah")
    case 25 => Some("Lamentations")
    case 26 => Some("Ezekiel")
    case 27 => Some("Daniel")
    case 28 => Some("Hosea")
    case 29 => Some("Joel")
    case 30 => Some("Amos")
    case 31 => Some("Obadiah")
    case 32 => Some("Jonah")
    case 33 => Some("Micah")
    case 34 => Some("Nahum")
    case 35 => Some("Habakkuk")
    case 36 => Some("Zephaniah")
    case 37 => Some("Haggai")
    case 38 => Some("Zechariah")
    case 39 => Some("Malachi")
    case 40 => Some("Matthew")
    case 41 => Some("Mark")
    case 42 => Some("Luke")
    case 43 => Some("John")
    case 44 => Some("Acts")
    case 45 => Some("Romans")
    case 46 => Some("I Corinthians")
    case 47 => Some("II Corinthians")
    case 48 => Some("Galatians")
    case 49 => Some("Ephesians")
    case 50 => Some("Philippians")
    case 51 => Some("Colossians")
    case 52 => Some("I Thessalonians")
    case 53 => Some("II Thessalonians")
    case 54 => Some("I Timothy")
    case 55 => Some("II Timothy")
    case 56 => Some("Titus")
    case 57 => Some("Philemon")
    case 58 => Some("Hebrews")
    case 59 => Some("James")
    case 60 => Some("I Peter")
    case 61 => Some("II Peter")
    case 62 => Some("I John")
    case 63 => Some("II John")
    case 64 => Some("III John")
    case 65 => Some("Jude")
    case 66 => Some("Revelation")
    case _ => None
  }

  /** The index table sends each book to its place in the canonical order. */
  lemma BookIndexInverse(name: string)
    ensures BookIndex(name).Some? ==> BookAtPosition(BookIndex(name).value) == Some(name)
  {
    var i := BookIndex(name);
    if i.Some? {
      if i.value <= 17 {
        LawAndHistoryInverse(name);
      } else if i.value <= 39 {
        PoetryAndProphetsInverse(name);
      } else if i.value <= 57 {
        GospelsToPaulInverse(name);
      } else {
        HebrewsToRevelationInverse(name);
      }
    }
  }

  // The inverse property, one part of the canon at a time.
  lemma LawAndHistoryInverse(name: string)
    requires BookIndex(name).Some? && BookIndex(name).value <= 17
    ensures BookAtPosition(BookIndex(name).value) == Some(name)
  {
  }

  lemma PoetryAndProphetsInverse(name: string)
    requires BookIndex(name).Some? && 18 <= BookIndex(name).value <= 39
    ensures BookAtPosition(BookIndex(name).value) == Some(name)
  {
  }

  lemma GospelsToPaulInverse(name: string)
    requires BookIndex(name).Some? && 40 <= BookIndex(name).value <= 57
    ensures BookAtPosition(BookIndex(name).value) == Some(name)
  {
  }

  lemma HebrewsToRevelationInverse(name: string)
    requires BookIndex(name).Some? && 58 <= BookIndex(name).value
    ensures BookAtPosition(BookIndex(name).value) == Some(name)
  {
  }

  /** No book name the tables know holds a colon, so the reference pattern never splits one. */
  lemma KnownBookHasNoColon(name: string)
    requires BookIndex(name).Some? || BookAlias(name).Some?
    ensures ':' !in name
  {
    if BookAlias(name).Some? {
      AliasKeysHaveNoColon(name);
    } else {
      BookIndexInverse(name);
      var i := BookIndex(name).value;
      if i <= 17 {
        LawAndHistoryHaveNoColon(i);
      } else if i <= 39 {
        PoetryAndProphetsHaveNoColon(i);
      } else if i <= 57 {
        GospelsToPaulHaveNoColon(i);
      } else {
        HebrewsToRevelationHaveNoColon(i);
      }
    }
  }

  // The same, for the alias keys and then one part of the canon at a time.
  lemma AliasKeysHaveNoColon(name: string)
    requires BookAlias(name).Some?
    ensures ':' !in name
  {
    match name
    case "1 Peter" =>
    case "2 Peter" =>
    case "1 John" =>
    case "2 John" =>
    case "3 John" =>
    case "1 Corinthians" =>
    case "2 Corinthians" =>
    case "1 Thessalonians" =>
    case "2 Thessalonians" =>
    case "1 Timothy" =>
    case "2 Timothy" =>
    case "1 Kings" =>
    case "2 Kings" =>
    case "1 Chronicles" =>
    case "2 Chronicles" =>
    case "1 Samuel" =>
    case "2 Samuel" =>
    case _ =>
  }

  lemma LawAndHistoryHaveNoColon(i: nat)
    requires BookAtPosition(i).Some? && i <= 17
    ensures ':' !in BookAtPosition(i).value
  {
  }

  lemma PoetryAndProphetsHaveNoColon(i: nat)
    requires BookAtPosition(i).Some? && 18 <= i <= 39
    ensures ':' !in BookAtPosition(i).value
  {
  }

  lemma GospelsToPaulHaveNoColon(i: nat)
    requires BookAtPosition(i).Some? && 40 <= i <= 57
    ensures ':' !in BookAtPosition(i).value
  {
  }

  lemma HebrewsToRevelationHaveNoColon(i: nat)
    requires BookAtPosition(i).Some? && 58 <= i
    ensures ':' !in BookAtPosition(i).value
  {
  }

  /** No two books share an index. */
  lemma BookIndexInjective(a: string, b: string)
    requires BookIndex(a).Some? && BookIndex(a) == BookIndex(b)
    ensures a == b
  {
    BookIndexInverse(a);
    BookIndexInverse(b);
  }

  /** `bookAliases[name] || name`: an alias is replaced, any other name passes through. */
  function CanonicalName(name: string): (r: string)
    ensures BookAlias(name).None? ==> r == name
  {
    var alias := BookAlias(name);
    if alias.Some? && alias.value != "" then alias.value else name
  }

  /** Every alias leads to an indexed book, so an aliased name never fails the lookup. */
  lemma AliasTargetsAreIndexed(name: string)
    requires BookAlias(name).Some?
    ensures BookIndex(CanonicalName(name)).Some?
  {
  }

  /** Canonical names are not aliases themselves: normalising twice changes nothing. */
  lemma CanonicalNameIdempotent(name: string)
    ensures CanonicalName(CanonicalName(name)) == CanonicalName(name)
  {
    if BookAlias(name).Some? {
      CanonicalOfAlias(name);
      AliasTargetsStartWithI(name);
      AliasKeysStartWithDigitOnly(BookAlias(name).value);
    }
  }

  /** The chapter as written in a file name: `padStart(2, '0')` of its decimal form. */
  function ChapterNumber(chapter: nat): (d: string)
    ensures |d| >= 2 && AllDigits(d) && DecimalValue(d) == chapter
    ensures |d| > 2 ==> d == NatToString(chapter)
  {
    ZeroPaddedValue(chapter, 2);
    PadStart(NatToString(chapter), 2, '0')
  }

  /** `getBibleChapterFileName`: `[<bibleFolder>/]<index> <canonical name>/Chapter <NN>`. */
  function ChapterFileName(bookName: string, chapter: nat, bibleFolder: string): (r: Option<string>)
    ensures r.Some? <==> BookIndex(CanonicalName(Trim(bookName))).Some?
    ensures r.Some? ==> r.value != []
  {
    BookChapterFile(CanonicalName(Trim(bookName)), chapter, bibleFolder)
  }

  /** The part of `getBibleChapterFileName` after the name is normalised. */
  function BookChapterFile(canonicalName: string, chapter: nat, bibleFolder: string): (r: Option<string>)
    ensures r.Some? <==> BookIndex(canonicalName).Some?
    ensures r.Some? ==> r.value != []
  {
    var bookIndex := BookIndex(canonicalName);
    if bookIndex.None? then None
    else
      var bookFolder := NatToString(bookIndex.value) + " " + canonicalName;
      var chapterPath := bookFolder + "/Chapter " + ChapterNumber(chapter);
      if bibleFolder != "" then Some(bibleFolder + "/" + chapterPath)
      else Some(chapterPath)
  }

  /**
   * The shape of a chapter path: the Bible folder and a slash exactly when a
   * folder is configured, then `<index> <canonical name>/Chapter <NN>`, where
   * `NN` reads back as the chapter (`ChapterNumber`).
   */
  lemma ChapterPathShape(canonicalName: string, chapter: nat, bibleFolder: string, bookIndex: nat)
    requires BookIndex(canonicalName) == Some(bookIndex)
    ensures var path := BookChapterFile(canonicalName, chapter, bibleFolder).value;
            var tail := NatToString(bookIndex) + " " + canonicalName + "/Chapter " + ChapterNumber(chapter);
            && (bibleFolder == "" ==> path == tail)
            && (bibleFolder != "" ==> path == bibleFolder + "/" + tail)
  {
  }

  lemma AliasKeysStartWithDigit(name: string)
    requires BookAlias(name).Some?
    ensures |name| >= 1 && IsDigit(name[0])
  {
  }

  lemma AliasTargetsStartWithI(name: string)
    requires BookAlias(name).Some?
    ensures |BookAlias(name).value| >= 1 && BookAlias(name).value[0] == 'I'
  {
  }

  lemma AliasTargetsEnd(name: string)
    requires BookAlias(name).Some?
    ensures |BookAlias(name).value| >= 1 && 'a' <= BookAlias(name).value[|BookAlias(name).value| - 1] <= 'z'
  {
  }

  /** Alias targets are written without surrounding whitespace. */
  lemma AliasTargetsAreTrimmed(name: string)
    requires BookAlias(name).Some?
    ensures IsTrimmed(BookAlias(name).value)
  {
    AliasTargetsStartWithI(name);
    AliasTargetsEnd(name);
  }

  lemma CanonicalOfAlias(name: string)
    requires BookAlias(name).Some?
    ensures CanonicalName(name) == BookAlias(name).value
  {
    AliasTargetsStartWithI(name);
  }

  lemma CanonicalOfTarget(name: string)
    requires BookAlias(name).Some?
    ensures CanonicalName(Trim(BookAlias(name).value)) == BookAlias(name).value
  {
    var target := BookAlias(name).value;
    AliasTargetsAreTrimmed(name);
    TrimOfTrimmed(target);
    AliasTargetsStartWithI(name);
    AliasKeysStartWithDigitOnly(target);
  }

  lemma AliasKeysStartWithDigitOnly(name: string)
    requires |name| >= 1 && name[0] == 'I'
    ensures BookAlias(name).None?
  {
    if BookAlias(name).Some? {
      AliasKeysStartWithDigit(name);
    }
  }

  /** An alias and the name it stands for lead to the same chapter file. */
  lemma ChapterFileNameOfAlias(alias: string, chapter: nat, bibleFolder: string)
    requires BookAlias(Trim(alias)).Some?
    ensures ChapterFileName(alias, chapter, bibleFolder).Some?
    ensures ChapterFileName(alias, chapter, bibleFolder) == ChapterFileName(BookAlias(Trim(alias)).value, chapter, bibleFolder)
  {
    var name := Trim(alias);
    CanonicalOfAlias(name);
    CanonicalOfTarget(name);
    AliasTargetsAreIndexed(name);
  }
}
