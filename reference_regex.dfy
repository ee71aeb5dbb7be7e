/**
 * A hand-written matcher for the Bible-reference regular expression
 *
 *     ^([^|]*?)\s+(\d+):(\d+)(?:-(\d+))?\|?(.*)?$
 *
 * with JavaScript's backtracking semantics.  Group 1 is lazy, so the match
 * takes the shortest pipe-free book name after which the rest of the pattern
 * matches; every later quantifier is greedy, and since `(.*)?$` accepts the
 * remainder exactly when it holds no line terminator, the greedy choice at
 * that position is the one the engine keeps.
 */
module ReferenceRegex {
  import opened Wrappers
  import opened JsStrings

  /** The text after the book name: `\s+(\d+):(\d+)(?:-(\d+))?\|?(.*)?`, piece by piece. */
  datatype Tail = Tail(
    space: string,              // \s+
    chapter: string,            // group 2
    startVerse: string,         // group 3
    endVerse: Option<string>,   // group 4
    pipe: bool,                 // \|?
    rest: string)               // group 5 (empty when it did not participate)

  /** A successful match: group 1 and the rest. */
  datatype ReferenceMatch = ReferenceMatch(book: string, tail: Tail)

  function EndVerseText(endVerse: Option<string>): string {
    if endVerse.Some? then "-" + endVerse.value else ""
  }

  function PipeText(pipe: bool): string {
    if pipe then "|" else ""
  }

  /** What follows the start verse: `(?:-(\d+))?\|?(.*)?`. */
  function AfterStartVerse(t: Tail): string {
    EndVerseText(t.endVerse) + (PipeText(t.pipe) + t.rest)
  }

  /** The text a tail stands for. */
  function TailText(t: Tail): string {
    t.space + (t.chapter + (":" + (t.startVerse + AfterStartVerse(t))))
  }

  /** A tail every piece of which matches its part of the pattern. */
  predicate WellFormedTail(t: Tail) {
    && |t.space| >= 1 && AllSpace(t.space)
    && |t.chapter| >= 1 && AllDigits(t.chapter)
    && |t.startVerse| >= 1 && AllDigits(t.startVerse)
    && (t.endVerse.Some? ==> |t.endVerse.value| >= 1 && AllDigits(t.endVerse.value))
    && NoLineTerminator(t.rest)
  }

  /** Group 1 is `[^|]*`. */
  predicate NoPipe(s: string) {
    '|' !in s
  }

  /**
   * The decomposition greedy quantifiers pick: the verse digits are not
   * followed by a further digit, the `-<digits>` group is taken whenever it
   * can be, and so is the pipe.
   */
  predicate GreedyTail(t: Tail) {
    var after := PipeText(t.pipe) + t.rest;
    && (after == [] || !IsDigit(after[0]))
    && (t.endVerse.None? ==> !(|after| >= 2 && after[0] == '-' && IsDigit(after[1])))
    && (!t.pipe ==> (t.rest == [] || t.rest[0] != '|'))
  }

  /** The two character classes the pattern repeats: `\s` and `\d`. */
  datatype CharClass = Space | Digit

  predicate InClass(c: char, cls: CharClass) {
    match cls
    case Space => IsSpace(c)
    case Digit => IsDigit(c)
  }

  predicate AllIn(s: string, cls: CharClass) {
    match cls
    case Space => AllSpace(s)
    case Digit => AllDigits(s)
  }

  /** `s` does not go on with a character of class `cls`. */
  predicate StopsClass(s: string, cls: CharClass) {
    s == [] || !InClass(s[0], cls)
  }

  /** A greedy `\s+` or `\d+` (without the at-least-one check): the longest run of `cls` in front of `s`, and what follows it. */
  function Span(s: string, cls: CharClass): (r: (string, string))
    ensures r.0 + r.1 == s
    ensures AllIn(r.0, cls) && StopsClass(r.1, cls)
    ensures r.0 == [] <==> StopsClass(s, cls)
    decreases |s|
  {
    if StopsClass(s, cls) then ([], s)
    else
      var r := Span(s[1..], cls);
      assert [s[0]] + r.0 + r.1 == [s[0]] + (r.0 + r.1);
      AllInCons(s[0], r.0, cls);
      ([s[0]] + r.0, r.1)
  }

  lemma AllInCons(c: char, s: string, cls: CharClass)
    requires InClass(c, cls) && AllIn(s, cls)
    ensures AllIn([c] + s, cls)
  {
    var u := [c] + s;
    assert forall i :: 1 <= i < |u| ==> u[i] == s[i - 1];
  }

  /** A run of `cls` followed by something that stops it is exactly what `Span` splits off. */
  lemma {:induction false} SpanOf(run: string, rest: string, cls: CharClass)
    requires AllIn(run, cls) && StopsClass(rest, cls)
    ensures Span(run + rest, cls) == (run, rest)
    decreases |run|
  {
    if run == [] {
      assert run + rest == rest;
    } else {
      var s := run + rest;
      assert s[0] == run[0] && s[1..] == run[1..] + rest;
      assert AllIn(run[1..], cls);
      SpanOf(run[1..], rest, cls);
      assert [run[0]] + run[1..] == run;
    }
  }

  /** `(?:-(\d+))?`: taken whenever a dash and a digit come next. */
  function MatchEndVerse(u: string): (r: (Option<string>, string))
    ensures EndVerseText(r.0) + r.1 == u
    ensures r.0.Some? ==> |r.0.value| >= 1 && AllDigits(r.0.value) && StopsClass(r.1, Digit)
    ensures r.0.None? ==> r.1 == u && !(|u| >= 2 && u[0] == '-' && IsDigit(u[1]))
  {
    if |u| >= 2 && u[0] == '-' && IsDigit(u[1]) then
      var r := Span(u[1..], Digit);
      assert "-" + r.0 + r.1 == "-" + (r.0 + r.1);
      assert u == "-" + u[1..];
      (Some(r.0), r.1)
    else (None, u)
  }

  /** `\|?`: taken whenever a pipe comes next. */
  function MatchPipe(u: string): (r: (bool, string))
    ensures PipeText(r.0) + r.1 == u
    ensures !r.0 ==> r.1 == u && (u == [] || u[0] != '|')
  {
    if u != [] && u[0] == '|' then
      assert u == "|" + u[1..];
      (true, u[1..])
    else (false, u)
  }

  /** The greedy match of `\s+(\d+):(\d+)(?:-(\d+))?\|?(.*)?$` against the whole of `u`. */
  function MatchTail(u: string): (r: Option<Tail>)
    ensures r.Some? ==> WellFormedTail(r.value) && GreedyTail(r.value) && TailText(r.value) == u
  {
    var (space, u1) := Span(u, Space);
    var (chapter, u2) := Span(u1, Digit);
    if space == [] || chapter == [] || u2 == [] || u2[0] != ':' then None
    else
      var (startVerse, u3) := Span(u2[1..], Digit);
      var (endVerse, u4) := MatchEndVerse(u3);
      var (pipe, rest) := MatchPipe(u4);
      if startVerse == [] || !NoLineTerminator(rest) then None
      else
        assert u2 == ":" + u2[1..];
        Some(Tail(space, chapter, startVerse, endVerse, pipe, rest))
  }

  lemma NoLineTerminatorConcat(a: string, b: string)
    ensures NoLineTerminator(a + b) <==> NoLineTerminator(a) && NoLineTerminator(b)
  {
    if NoLineTerminator(a + b) {
      forall i | 0 <= i < |a| ensures !IsLineTerminator(a[i]) {
        assert a[i] == (a + b)[i];
      }
      forall i | 0 <= i < |b| ensures !IsLineTerminator(b[i]) {
        assert b[i] == (a + b)[|a| + i];
      }
    }
    if NoLineTerminator(a) && NoLineTerminator(b) {
      forall i | 0 <= i < |a + b| ensures !IsLineTerminator((a + b)[i]) {
        if i >= |a| {
          assert (a + b)[i] == b[i - |a|];
        }
      }
    }
  }

  /** The verse part of a well-formed tail holds no line terminator. */
  lemma VersePartHasNoLineTerminator(t: Tail)
    requires WellFormedTail(t)
    ensures NoLineTerminator(t.startVerse + AfterStartVerse(t))
  {
    NoLineTerminatorConcat(PipeText(t.pipe), t.rest);
    NoLineTerminatorConcat(EndVerseText(t.endVerse), PipeText(t.pipe) + t.rest);
    if t.endVerse.Some? {
      NoLineTerminatorConcat("-", t.endVerse.value);
    }
    NoLineTerminatorConcat(t.startVerse, AfterStartVerse(t));
  }

  /** The start verse's digits are the longest run: what follows is not a digit. */
  lemma AfterStartVerseStops(t: Tail)
    requires GreedyTail(t)
    ensures StopsClass(AfterStartVerse(t), Digit)
  {
    if t.endVerse.Some? {
      assert AfterStartVerse(t)[0] == '-';
    } else {
      assert AfterStartVerse(t) == PipeText(t.pipe) + t.rest;
    }
  }

  /** Matching the text of a tail splits off its space and chapter and reaches its verse part. */
  lemma MatchTailPrefix(t: Tail)
    requires WellFormedTail(t)
    ensures Span(TailText(t), Space) == (t.space, t.chapter + (":" + (t.startVerse + AfterStartVerse(t))))
    ensures Span(t.chapter + (":" + (t.startVerse + AfterStartVerse(t))), Digit)
      == (t.chapter, ":" + (t.startVerse + AfterStartVerse(t)))
  {
    var v := t.startVerse + AfterStartVerse(t);
    assert (t.chapter + (":" + v))[0] == t.chapter[0];
    SpanOf(t.space, t.chapter + (":" + v), Space);
    assert (":" + v)[0] == ':';
    SpanOf(t.chapter, ":" + v, Digit);
  }

  /** Whenever the pattern can match a text at all, the greedy matcher finds a match. */
  lemma MatchTailComplete(t: Tail)
    requires WellFormedTail(t)
    ensures MatchTail(TailText(t)).Some?
  {
    var v := t.startVerse + AfterStartVerse(t);
    MatchTailPrefix(t);
    assert (":" + v)[1..] == v;
    var r3 := Span(v, Digit);
    assert v[0] == t.startVerse[0];
    var r4 := MatchEndVerse(r3.1);
    var r5 := MatchPipe(r4.1);
    VersePartHasNoLineTerminator(t);
    NoLineTerminatorConcat(r3.0, r3.1);
    NoLineTerminatorConcat(EndVerseText(r4.0), r4.1);
    NoLineTerminatorConcat(PipeText(r5.0), r5.1);
  }

  /** On a greedy tail, `(?:-(\d+))?` takes exactly the tail's end verse. */
  lemma MatchEndVerseOfGreedy(t: Tail)
    requires WellFormedTail(t) && GreedyTail(t)
    ensures MatchEndVerse(AfterStartVerse(t)) == (t.endVerse, PipeText(t.pipe) + t.rest)
  {
    var y := PipeText(t.pipe) + t.rest;
    var w := AfterStartVerse(t);
    if t.endVerse.Some? {
      var e := t.endVerse.value;
      assert w == "-" + (e + y);
      assert w[1..] == e + y && w[1] == e[0];
      SpanOf(e, y, Digit);
    } else {
      assert w == y;
    }
  }

  /** On a greedy tail, `\|?` takes exactly the tail's pipe. */
  lemma MatchPipeOfGreedy(t: Tail)
    requires GreedyTail(t)
    ensures MatchPipe(PipeText(t.pipe) + t.rest) == (t.pipe, t.rest)
  {
    if t.pipe {
      var y := PipeText(t.pipe) + t.rest;
      assert y == "|" + t.rest;
      assert y[1..] == t.rest;
    } else {
      assert PipeText(t.pipe) + t.rest == t.rest;
    }
  }

  /** The greedy decomposition of a text is exactly the one the matcher returns. */
  lemma MatchTailOfGreedy(t: Tail)
    requires WellFormedTail(t) && GreedyTail(t)
    ensures MatchTail(TailText(t)) == Some(t)
  {
    var v := t.startVerse + AfterStartVerse(t);
    MatchTailPrefix(t);
    assert (":" + v)[1..] == v;
    AfterStartVerseStops(t);
    SpanOf(t.startVerse, AfterStartVerse(t), Digit);
    MatchEndVerseOfGreedy(t);
    MatchPipeOfGreedy(t);
  }

  /** The leftmost match whose book name starts at 0 and ends at `k` or later. */
  function MatchFrom(s: string, k: nat): (r: Option<ReferenceMatch>)
    requires k <= |s| && NoPipe(s[..k])
    ensures r.Some? ==> k <= |r.value.book| <= |s| && r.value.book == s[..|r.value.book|]
    ensures r.Some? ==> NoPipe(r.value.book) && MatchTail(s[|r.value.book|..]) == Some(r.value.tail)
    ensures r.Some? ==> forall j :: k <= j < |r.value.book| ==> MatchTail(s[j..]).None?
    decreases |s| - k
  {
    var t := MatchTail(s[k..]);
    if t.Some? then Some(ReferenceMatch(s[..k], t.value))
    else if k < |s| && s[k] != '|' then
      assert s[..k + 1] == s[..k] + [s[k]];
      MatchFrom(s, k + 1)
    else None
  }

  /** `bibleRegex.exec(s)`: the match with the shortest book name, if any. */
  function MatchReference(s: string): (r: Option<ReferenceMatch>)
    ensures r.Some? ==> NoPipe(r.value.book) && WellFormedTail(r.value.tail) && GreedyTail(r.value.tail)
    ensures r.Some? ==> r.value.book + TailText(r.value.tail) == s
  {
    var r := MatchFrom(s, 0);
    if r.Some? then
      assert s == s[..|r.value.book|] + s[|r.value.book|..];
      r
    else r
  }

  lemma {:induction false} MatchFromReaches(s: string, k: nat, j: nat)
    requires k <= j <= |s| && NoPipe(s[..j]) && MatchTail(s[j..]).Some?
    ensures MatchFrom(s, k).Some? && |MatchFrom(s, k).value.book| <= j
    decreases j - k
  {
    if MatchTail(s[k..]).None? {
      assert s[k] in s[..j];
      MatchFromReaches(s, k + 1, j);
    }
  }

  /**
   * The regex matches whenever the text splits into a pipe-free book name and
   * a well-formed tail, and then its book name is no longer than that one.
   */
  lemma MatchReferenceLeast(s: string, book: string, t: Tail)
    requires NoPipe(book) && WellFormedTail(t) && s == book + TailText(t)
    ensures MatchReference(s).Some? && |MatchReference(s).value.book| <= |book|
  {
    assert s[..|book|] == book && s[|book|..] == TailText(t);
    MatchTailComplete(t);
    MatchFromReaches(s, 0, |book|);
  }

  /** Where the pieces of a tail sit in its text: spaces, then chapter digits, then the colon. */
  lemma TailTextLayout(t: Tail)
    requires WellFormedTail(t)
    ensures |TailText(t)| > |t.space| + |t.chapter|
    ensures TailText(t)[|t.space| + |t.chapter|] == ':'
    ensures forall i :: 0 <= i < |t.space| ==> IsSpace(TailText(t)[i])
    ensures forall i :: |t.space| <= i < |t.space| + |t.chapter| ==> IsDigit(TailText(t)[i])
  {
    var u := TailText(t);
    var c := t.chapter + (":" + (t.startVerse + AfterStartVerse(t)));
    assert u == t.space + c;
    forall i | 0 <= i < |t.space| ensures IsSpace(u[i]) {
      assert u[i] == t.space[i];
    }
    forall i | |t.space| <= i < |t.space| + |t.chapter| ensures IsDigit(u[i]) {
      assert u[i] == c[i - |t.space|] == t.chapter[i - |t.space|];
    }
    assert u[|t.space| + |t.chapter|] == c[|t.chapter|] == ':';
  }

  /**
   * If a colon-free text `x` ending in a non-space starts a tail's text, then
   * what follows `x` starts with a chapter digit or the colon, never a space.
   */
  lemma TailPrefixShape(x: string, t: Tail, y: string)
    requires WellFormedTail(t) && TailText(t) == x + y
    requires x != [] && ':' !in x && !IsSpace(x[|x| - 1])
    ensures y != [] && !IsSpace(y[0])
  {
    var u := TailText(t);
    var sp := |t.space|;
    var colon := sp + |t.chapter|;
    TailTextLayout(t);
    assert u[..|x|] == x;
    assert |x| <= colon by {
      assert forall i :: 0 <= i < |x| ==> u[i] == x[i];
    }
    assert !IsSpace(u[|x| - 1]);
    assert sp <= |x| - 1;
    assert y[0] == u[|x|];
  }

  /** No tail starts strictly inside a colon-free book name that ends in a non-space. */
  lemma NoTailInsideBook(x: string, t: Tail)
    requires x != [] && ':' !in x && !IsSpace(x[|x| - 1]) && WellFormedTail(t)
    ensures MatchTail(x + TailText(t)).None?
  {
    var y := TailText(t);
    assert y[0] == t.space[0];
    var m := MatchTail(x + y);
    if m.Some? {
      TailPrefixShape(x, m.value, y);
      assert false;
    }
  }

  /** The lazy book group stops at the first position where a tail matches. */
  lemma {:induction false} MatchFromExact(s: string, k: nat, n: nat)
    requires k <= n <= |s| && NoPipe(s[..n]) && MatchTail(s[n..]).Some?
    requires forall j :: k <= j < n ==> MatchTail(s[j..]).None?
    ensures MatchFrom(s, k) == Some(ReferenceMatch(s[..n], MatchTail(s[n..]).value))
    decreases n - k
  {
    if k < n {
      assert s[k] in s[..n];
      assert s[..k] == s[..n][..k];
      MatchFromExact(s, k + 1, n);
    }
  }

  /**
   * A reference written out in full is matched as written: a colon- and
   * pipe-free book name that ends in a non-space, followed by a greedy tail,
   * comes back as exactly that book name and that tail.
   */
  lemma MatchReferenceOfReference(book: string, t: Tail)
    requires book != [] && NoPipe(book) && ':' !in book && !IsSpace(book[|book| - 1])
    requires WellFormedTail(t) && GreedyTail(t)
    ensures MatchReference(book + TailText(t)) == Some(ReferenceMatch(book, t))
  {
    var s := book + TailText(t);
    forall j | 0 <= j < |book| ensures MatchTail(s[j..]).None? {
      var x := book[j..];
      assert s[j..] == x + TailText(t);
      assert x[|x| - 1] == book[|book| - 1];
      assert ':' !in x by {
        assert forall i :: 0 <= i < |x| ==> x[i] == book[j + i];
      }
      NoTailInsideBook(x, t);
    }
    assert s[..|book|] == book && s[|book|..] == TailText(t);
    MatchTailOfGreedy(t);
    MatchFromExact(s, 0, |book|);
  }

  /** A whitespace character in front of a tail's text makes the text of a tail whose `\s+` run is one longer. */
  lemma SpaceBeforeTail(c: char, t: Tail)
    requires IsSpace(c) && WellFormedTail(t)
    ensures WellFormedTail(t.(space := [c] + t.space))
    ensures TailText(t.(space := [c] + t.space)) == [c] + TailText(t)
  {
    AllInCons(c, t.space, Space);
    var rest := t.chapter + (":" + (t.startVerse + AfterStartVerse(t)));
    assert ([c] + t.space) + rest == [c] + (t.space + rest);
  }

  /** A book name ending in whitespace leaves a tail that already matches one position earlier. */
  lemma TailBeforeTrailingSpace(s: string, book: string, t: Tail)
    requires book != [] && IsSpace(book[|book| - 1]) && WellFormedTail(t) && s == book + TailText(t)
    ensures MatchTail(s[|book| - 1..]).Some?
  {
    var n := |book| - 1;
    var c := book[n];
    SpaceBeforeTail(c, t);
    assert book == book[..n] + [c];
    assert s == book[..n] + ([c] + TailText(t));
    assert s[n..] == [c] + TailText(t);
    MatchTailComplete(t.(space := [c] + t.space));
  }

  /**
   * The lazy book group never ends in whitespace: were its last character a
   * space, the tail would already match one position earlier.
   */
  lemma BookEndsInNonSpace(s: string)
    requires MatchReference(s).Some? && MatchReference(s).value.book != []
    ensures var book := MatchReference(s).value.book;
            !IsSpace(book[|book| - 1])
  {
    var r := MatchFrom(s, 0);
    assert MatchReference(s) == r;
    var book := r.value.book;
    assert MatchTail(s[|book| - 1..]).None?;
    if IsSpace(book[|book| - 1]) {
      TailBeforeTrailingSpace(s, book, r.value.tail);
    }
  }

  /** On a trimmed text, group 1 is a non-empty trimmed book name. */
  lemma MatchedBookTrimmed(s: string)
    requires IsTrimmed(s) && MatchReference(s).Some?
    ensures MatchReference(s).value.book != []
    ensures IsTrimmed(MatchReference(s).value.book)
  {
    var m := MatchReference(s).value;
    var u := TailText(m.tail);
    assert u[0] == m.tail.space[0];
    if m.book != [] {
      assert s[0] == m.book[0];
      BookEndsInNonSpace(s);
    }
  }
}
