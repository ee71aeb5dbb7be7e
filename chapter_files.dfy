/**
 * `findBibleChapterFile`: locating the markdown file of a chapter path in
 * the vault.  The vault's file list is a parameter (`app.vault.getMarkdownFiles()`
 * is I/O); each file is reduced to the two properties the search reads.
 */
module ChapterFiles {
  import opened Wrappers
  import opened JsStrings

  /** A markdown file of the vault: its full path and its name without folder or extension. */
  datatype VaultFile = VaultFile(path: string, basename: string)

  /** The three searches, in the order they are tried. */
  datatype Criterion = ExactPath | Basename | PathSuffix

  /** The predicate `files.find` is given for each search. */
  predicate Meets(f: VaultFile, name: string, c: Criterion)
    ensures Meets(f, name, c) && c != Basename ==> |f.path| >= |name| + 3
  {
    match c
    case ExactPath => f.path == name + ".md"
    case Basename => f.basename == name
    case PathSuffix => EndsWith(f.path, name + ".md")
  }

  /** `files.find(...)`, as an index: the first file meeting `c`, if any does. */
  function FirstMeeting(files: seq<VaultFile>, name: string, c: Criterion): (r: Option<nat>)
    ensures r.Some? ==> r.value < |files| && Meets(files[r.value], name, c)
    ensures r.Some? ==> forall j :: 0 <= j < r.value ==> !Meets(files[j], name, c)
    ensures r.None? ==> forall j :: 0 <= j < |files| ==> !Meets(files[j], name, c)
  {
    if files == [] then None
    else if Meets(files[0], name, c) then Some(0)
    else
      var r := FirstMeeting(files[1..], name, c);
      assert forall j :: 1 <= j < |files| ==> files[j] == files[1..][j - 1];
      if r.Some? then Some(r.value + 1) else None
  }

  /** The file `files.find` returns for criterion `c`. */
  function Find(files: seq<VaultFile>, name: string, c: Criterion): (r: Option<VaultFile>)
    ensures r.Some? <==> FirstMeeting(files, name, c).Some?
    ensures r.Some? ==> r.value == files[FirstMeeting(files, name, c).value]
  {
    var i := FirstMeeting(files, name, c);
    if i.Some? then Some(files[i.value]) else None
  }

  /**
   * `findBibleChapterFile`: the first file whose path is the chapter path
   * plus `.md`; failing that, the first whose basename is the chapter path;
   * failing that, the first whose path ends with the chapter path plus `.md`.
   */
  function FindBibleChapterFile(files: seq<VaultFile>, chapterFileName: string): (r: Option<VaultFile>)
    ensures FirstMeeting(files, chapterFileName, ExactPath).Some? ==>
              r == Some(files[FirstMeeting(files, chapterFileName, ExactPath).value])
    ensures FirstMeeting(files, chapterFileName, ExactPath).None? && FirstMeeting(files, chapterFileName, Basename).Some? ==>
              r == Some(files[FirstMeeting(files, chapterFileName, Basename).value])
    ensures FirstMeeting(files, chapterFileName, ExactPath).None? && FirstMeeting(files, chapterFileName, Basename).None? ==>
              r == Find(files, chapterFileName, PathSuffix)
    ensures r.None? <==> forall i :: 0 <= i < |files| ==>
              && !Meets(files[i], chapterFileName, ExactPath)
              && !Meets(files[i], chapterFileName, Basename)
              && !Meets(files[i], chapterFileName, PathSuffix)
  {
    var exact := Find(files, chapterFileName, ExactPath);
    if exact.Some? then exact
    else
      var byBasename := Find(files, chapterFileName, Basename);
      if byBasename.Some? then byBasename
      else Find(files, chapterFileName, PathSuffix)
  }

  /** A file found at all is one of the vault's files, and its basename or its path names the chapter. */
  lemma FoundFileNamesChapter(files: seq<VaultFile>, chapterFileName: string)
    ensures var r := FindBibleChapterFile(files, chapterFileName);
            r.Some? ==> (r.value in files
              && (Meets(r.value, chapterFileName, Basename) || Meets(r.value, chapterFileName, PathSuffix)))
  {
    var r := FindBibleChapterFile(files, chapterFileName);
    if r.Some? && Meets(r.value, chapterFileName, ExactPath) {
      ExactPathEndsWithName(r.value, chapterFileName);
    }
  }

  /** An exact path match is also a path-suffix match. */
  lemma ExactPathEndsWithName(f: VaultFile, name: string)
    requires Meets(f, name, ExactPath)
    ensures Meets(f, name, PathSuffix)
  {
    assert f.path[|f.path| - |name + ".md"|..] == f.path;
  }
}
