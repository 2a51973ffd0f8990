/**
 * The syntax highlighter's span computation for one line of text, and for
 * the triple-quoted strings of the whole buffer.
 *
 * The keyword and builtin patterns are `\b(w1|w2|...)\b` alternations over
 * sets of identifiers; `WordSpans` finds exactly the matches of such a
 * pattern (`WordSpansAreBoundedMatches`).  The string patterns are
 * non-greedy alternations with backslash escapes; their matching is
 * deterministic, and `Closing` and `QuoteSpans` follow it step by step.
 */
module Highlight {
  import opened Wrappers
  import opened Chars
  import opened Words

  /** Columns `[start, end)` of a line, or flat positions `[start, end)` of the buffer. */
  datatype Span = Span(start: nat, end: nat)

  /** The spans one line contributes to the four highlight tags. */
  datatype LineTags = LineTags(comment: Option<Span>, keywords: seq<Span>, builtins: seq<Span>, strings: seq<Span>)

  /** The spans lie in `[lo, hi]`, are non-empty, and each ends before any later one begins. */
  predicate Ordered(spans: seq<Span>, lo: nat, hi: nat)
  {
    (forall k :: 0 <= k < |spans| ==> lo <= spans[k].start < spans[k].end <= hi) &&
    (forall j, k {:trigger Before(spans[j], spans[k])} :: 0 <= j < k < |spans| ==> Before(spans[j], spans[k]))
  }

  /** Span `a` ends before span `b` begins. */
  predicate Before(a: Span, b: Span)
  {
    a.end <= b.start
  }

  lemma OrderedCons(sp: Span, rest: seq<Span>, lo: nat, hi: nat)
    requires lo <= sp.start < sp.end <= hi && Ordered(rest, sp.end, hi)
    ensures Ordered([sp] + rest, lo, hi)
  {
    var r := [sp] + rest;
    forall j, k | 0 <= j < k < |r| ensures Before(r[j], r[k]) {
      assert r[k] == rest[k - 1];
      if j > 0 {
        assert r[j] == rest[j - 1];
        assert Before(rest[j - 1], rest[k - 1]);
      }
    }
  }

  lemma OrderedWeaken(spans: seq<Span>, lo: nat, lo': nat, hi: nat)
    requires lo' <= lo && Ordered(spans, lo, hi)
    ensures Ordered(spans, lo', hi)
  {
  }

  lemma OrderedWidenHi(spans: seq<Span>, lo: nat, hi: nat, hi': nat)
    requires hi <= hi' && Ordered(spans, lo, hi)
    ensures Ordered(spans, lo, hi')
  {
  }

  //
  // Comments.
  //

  /** The comment tag of a line: from its first non-blank character to its end, when that character is `#`. */
  function CommentSpan(line: string): (r: Option<Span>)
    ensures r.Some? <==> LeadingSpaces(line) < |line| && line[LeadingSpaces(line)] == '#'
    ensures r.Some? ==> r.value == Span(LeadingSpaces(line), |line|)
  {
    if StartsWith(LStrip(line), "#") then Some(Span(LeadingSpaces(line), |line|)) else None
  }

  /** The comment tag covers only blanks-free text: everything before it is whitespace. */
  lemma CommentSpanPrecededByBlanks(line: string)
    requires CommentSpan(line).Some?
    ensures var sp := CommentSpan(line).value;
      sp.start < sp.end == |line| && line[sp.start] == '#' &&
      forall k :: 0 <= k < sp.start ==> IsSpace(line[k])
  {
  }

  //
  // Keywords and builtins.
  //

  /** A word boundary (`\b`) at position `i`, for a position followed or preceded by a word character. */
  predicate LeftBoundary(s: string, i: nat)
    requires i <= |s|
  {
    i == 0 || !IsWordChar(s[i - 1])
  }

  predicate RightBoundary(s: string, i: nat)
    requires i <= |s|
  {
    i == |s| || !IsWordChar(s[i])
  }

  /** Every member is a non-empty identifier, as Python's keywords and builtin names are. */
  predicate Identifiers(words: set<string>)
  {
    forall w :: w in words ==> |w| > 0 && forall k :: 0 <= k < |w| ==> IsWordChar(w[k])
  }

  /** The maximal runs of word characters from `i` on that are members of `words`. */
  function WordSpans(s: string, words: set<string>, i: nat): (r: seq<Span>)
    requires i <= |s|
    decreases |s| - i
  {
    if i == |s| then []
    else if !IsWordChar(s[i]) then WordSpans(s, words, i + 1)
    else
      var e := WordRunEnd(s, i);
      var rest := WordSpans(s, words, e);
      if s[i..e] in words then [Span(i, e)] + rest else rest
  }

  /** The matches lie after `i`, are non-empty and come in order. */
  lemma {:induction false} WordSpansOrdered(s: string, words: set<string>, i: nat)
    requires i <= |s|
    ensures Ordered(WordSpans(s, words, i), i, |s|)
    decreases |s| - i
  {
    if i < |s| {
      if !IsWordChar(s[i]) {
        WordSpansOrdered(s, words, i + 1);
      } else {
        var e := WordRunEnd(s, i);
        WordSpansOrdered(s, words, e);
        if s[i..e] in words {
          OrderedCons(Span(i, e), WordSpans(s, words, e), i, |s|);
        }
      }
    }
  }

  /**
   * The spans of `WordSpans` are exactly the matches of the pattern
   * `\b(w1|w2|...)\b`: a member of the set with a word boundary on both sides.
   */
  lemma {:induction false} WordSpansAreBoundedMatches(s: string, words: set<string>, i: nat, a: nat, b: nat)
    requires Identifiers(words) && i <= |s| && (i == |s| || LeftBoundary(s, i) || !IsWordChar(s[i]))
    ensures Span(a, b) in WordSpans(s, words, i) <==>
      i <= a < b <= |s| && s[a..b] in words && LeftBoundary(s, a) && RightBoundary(s, b)
    decreases |s| - i
  {
    if i < |s| {
      var matched := i <= a < b <= |s| && s[a..b] in words && LeftBoundary(s, a) && RightBoundary(s, b);
      if matched {
        var w := s[a..b];
        assert |w| > 0 && IsWordChar(w[0]) && w[0] == s[a];
      }
      if !IsWordChar(s[i]) {
        WordSpansAreBoundedMatches(s, words, i + 1, a, b);
      } else {
        var e := WordRunEnd(s, i);
        WordSpansAreBoundedMatches(s, words, e, a, b);
        if i < a < e {
          assert IsWordChar(s[a - 1]);
        }
        if i <= b < e {
          assert IsWordChar(s[b]);
        }
        if a <= e < b <= |s| {
          WordNotAcrossNonWord(s, words, a, b, e);
        }
      }
    }
  }

  /** No member of `words` spans a character that is not a word character. */
  lemma WordNotAcrossNonWord(s: string, words: set<string>, a: nat, b: nat, e: nat)
    requires Identifiers(words) && a <= e < b <= |s| && !IsWordChar(s[e])
    ensures s[a..b] !in words
  {
    var w := s[a..b];
    assert w[e - a] == s[e];
  }

  //
  // Strings.
  //

  /** The delimiter `d` ends just before column `e` of `s`. */
  predicate ClosesAt(s: string, d: string, e: nat)
  {
    |d| <= e <= |s| && s[e - |d|..e] == d
  }

  /**
   * Where a string body starting at `j` is closed by the delimiter `d`, if it
   * is: the closing delimiter is tried first (the body is non-greedy), a
   * backslash takes the next character with it, any other character belongs
   * to the body.  `None` when the text ends first.
   */
  function Closing(s: string, d: string, j: nat): (r: Option<nat>)
    requires j <= |s|
    ensures r.Some? ==> j + |d| <= r.value && ClosesAt(s, d, r.value)
    decreases |s| - j
  {
    if j + |d| <= |s| && s[j..j + |d|] == d then Some(j + |d|)
    else if j < |s| && s[j] == '\\' then (if j + 1 < |s| then Closing(s, d, j + 2) else None)
    else if j < |s| then Closing(s, d, j + 1)
    else None
  }

  predicate IsQuote(c: char)
  {
    c == '\'' || c == '"'
  }

  /** The single-line string literals from `i` on, as `finditer` finds them: a quote whose string does not close is skipped. */
  function QuoteSpans(s: string, i: nat): (r: seq<Span>)
    requires i <= |s|
    decreases |s| - i
  {
    if i == |s| then []
    else if IsQuote(s[i]) && Closing(s, [s[i]], i + 1).Some? then
      var e := Closing(s, [s[i]], i + 1).value;
      [Span(i, e)] + QuoteSpans(s, e)
    else QuoteSpans(s, i + 1)
  }

  /** Each span is a string literal of `s`: it opens and closes with the same quote. */
  predicate Quoted(s: string, r: seq<Span>)
  {
    forall k :: 0 <= k < |r| ==>
      r[k].start + 2 <= r[k].end <= |s| && IsQuote(s[r[k].start]) && s[r[k].end - 1] == s[r[k].start]
  }

  lemma QuotedCons(s: string, sp: Span, rest: seq<Span>)
    requires sp.start + 2 <= sp.end <= |s| && IsQuote(s[sp.start]) && s[sp.end - 1] == s[sp.start] && Quoted(s, rest)
    ensures Quoted(s, [sp] + rest)
  {
    var r := [sp] + rest;
    forall k | 0 < k < |r| ensures r[k] == rest[k - 1] {
    }
  }

  /** The string literals found come in order after `i`, each opening and closing with the same quote. */
  lemma {:induction false} QuoteSpansShape(s: string, i: nat)
    requires i <= |s|
    ensures Ordered(QuoteSpans(s, i), i, |s|) && Quoted(s, QuoteSpans(s, i))
    decreases |s| - i
  {
    if i < |s| {
      if IsQuote(s[i]) && Closing(s, [s[i]], i + 1).Some? {
        var e := Closing(s, [s[i]], i + 1).value;
        var rest := QuoteSpans(s, e);
        QuoteSpansShape(s, e);
        OrderedCons(Span(i, e), rest, i, |s|);
        assert s[e - 1] == s[i] by {
          assert s[e - 1..e] == [s[i]];
          assert s[e - 1] == s[e - 1..e][0];
        }
        QuotedCons(s, Span(i, e), rest);
      } else {
        QuoteSpansShape(s, i + 1);
      }
    }
  }

  /** The opening delimiter of a triple-quoted string at `i`, if any. */
  function TripleOpener(s: string, i: nat): (r: Option<string>)
    requires i <= |s|
    ensures r.Some? ==> |r.value| == 3 && OccursAt(s, r.value, i)
  {
    if OccursAt(s, "'''", i) then Some("'''")
    else if OccursAt(s, "\"\"\"", i) then Some("\"\"\"")
    else None
  }

  /** The triple-quoted strings of the whole buffer text from `i` on; they may span lines. */
  function TripleSpans(s: string, i: nat): (r: seq<Span>)
    requires i <= |s|
    decreases |s| - i
  {
    if i == |s| then []
    else if TripleOpener(s, i).Some? && Closing(s, TripleOpener(s, i).value, i + 3).Some? then
      var e := Closing(s, TripleOpener(s, i).value, i + 3).value;
      [Span(i, e)] + TripleSpans(s, e)
    else TripleSpans(s, i + 1)
  }

  /** The triple-quoted strings come in order after `i`, each at least two delimiters long. */
  lemma {:induction false} TripleSpansShape(s: string, i: nat)
    requires i <= |s|
    ensures var r := TripleSpans(s, i);
      Ordered(r, i, |s|) && forall k :: 0 <= k < |r| ==> r[k].end >= r[k].start + 6
    decreases |s| - i
  {
    if i < |s| {
      if TripleOpener(s, i).Some? && Closing(s, TripleOpener(s, i).value, i + 3).Some? {
        var e := Closing(s, TripleOpener(s, i).value, i + 3).value;
        var rest := TripleSpans(s, e);
        TripleSpansShape(s, e);
        OrderedCons(Span(i, e), rest, i, |s|);
        var r := [Span(i, e)] + rest;
        assert forall k | 0 < k < |r| :: r[k] == rest[k - 1];
      } else {
        TripleSpansShape(s, i + 1);
      }
    }
  }

  //
  // The line's tags.
  //

  /**
   * Where the scanned part of a line ends.  As written, the highlighter cuts
   * the line at its first `#`, even when that `#` is inside a string literal.
   */
  function CodeEndAsWritten(line: string): (c: nat)
    ensures c <= |line|
  {
    Find(line, '#')
  }

  /**
   * Where the scanned part of a line ends: at the first `#` that is not
   * inside a string literal, the string literals being found the way
   * `QuoteSpans` finds them.
   */
  function CodeEnd(s: string, i: nat): (c: nat)
    requires i <= |s|
    ensures i <= c <= |s|
    ensures c < |s| ==> s[c] == '#'
    decreases |s| - i
  {
    if i == |s| then i
    else if s[i] == '#' then i
    else if IsQuote(s[i]) && Closing(s, [s[i]], i + 1).Some? then CodeEnd(s, Closing(s, [s[i]], i + 1).value)
    else CodeEnd(s, i + 1)
  }

  /** The tags of one line, given the text up to where scanning stops. */
  function TagsOfScan(line: string, scan: string, keywords: set<string>, builtins: set<string>): LineTags
  {
    LineTags(CommentSpan(line), WordSpans(scan, keywords, 0), WordSpans(scan, builtins, 0), QuoteSpans(scan, 0))
  }

  /** The line's tags as the highlighter computes them. */
  function LineTagsAsWritten(line: string, keywords: set<string>, builtins: set<string>): LineTags
  {
    TagsOfScan(line, line[..CodeEndAsWritten(line)], keywords, builtins)
  }

  /** The line's tags, with the comment found outside string literals. */
  function TagsOfLine(line: string, keywords: set<string>, builtins: set<string>): LineTags
  {
    TagsOfScan(line, line[..CodeEnd(line, 0)], keywords, builtins)
  }

  /** Keyword, builtin and string spans lie before the cut, and within one kind they do not overlap. */
  lemma TagsOfScanBounds(line: string, c: nat, keywords: set<string>, builtins: set<string>)
    requires c <= |line|
    ensures var t := TagsOfScan(line, line[..c], keywords, builtins);
      Ordered(t.keywords, 0, c) && Ordered(t.builtins, 0, c) && Ordered(t.strings, 0, c)
  {
    WordSpansOrdered(line[..c], keywords, 0);
    WordSpansOrdered(line[..c], builtins, 0);
    QuoteSpansShape(line[..c], 0);
  }

  /** As written, nothing but the comment tag reaches past the first `#` of the line. */
  lemma AsWrittenSpansBeforeHash(line: string, keywords: set<string>, builtins: set<string>)
    ensures var t := LineTagsAsWritten(line, keywords, builtins);
      Ordered(t.keywords, 0, Find(line, '#')) && Ordered(t.builtins, 0, Find(line, '#')) &&
      Ordered(t.strings, 0, Find(line, '#'))
  {
    TagsOfScanBounds(line, Find(line, '#'), keywords, builtins);
  }

  /** The line `x = "a#b"`: as written its string literal gets no string tag. */
  lemma HashInStringAsWritten()
    ensures LineTagsAsWritten("x = \"a#b\"", {}, {}).strings == []
  {
    var line := "x = \"a#b\"";
    assert CodeEndAsWritten(line) == 6 by {
      assert line[6] == '#';
    }
    assert line[..6] == "x = \"a";
    UnclosedQuote();
  }

  /** The code part that the as-written cut leaves, `x = "a`, holds no complete string literal. */
  lemma UnclosedQuote()
    ensures QuoteSpans("x = \"a", 0) == []
  {
    var scan := "x = \"a";
    assert Closing(scan, "\"", 5) == None by {
      assert Closing(scan, "\"", 6) == None;
    }
    assert QuoteSpans(scan, 4) == [] by {
      assert QuoteSpans(scan, 5) == [];
    }
  }

  /** With the corrected cut, `x = "a#b"` has the string tag on columns 4 to 9. */
  lemma HashInStringCorrected()
    ensures TagsOfLine("x = \"a#b\"", {}, {}).strings == [Span(4, 9)]
  {
    var line := "x = \"a#b\"";
    assert line[8..9] == "\"";
    assert line[7..8] == "b";
    assert line[6..7] == "#";
    assert line[5..6] == "a";
    assert Closing(line, "\"", 5) == Some(9);
    assert CodeEnd(line, 0) == 9;
    assert line[..9] == line;
    assert QuoteSpans(line, 0) == [Span(4, 9)];
  }

  /** The corrected cut never falls inside a string literal of the line. */
  lemma {:induction false} CodeEndOutsideStrings(s: string, i: nat)
    requires i <= |s|
    ensures forall k :: 0 <= k < |QuoteSpans(s, i)| ==>
      QuoteSpans(s, i)[k].end <= CodeEnd(s, i) || QuoteSpans(s, i)[k].start > CodeEnd(s, i)
    decreases |s| - i
  {
    if i < |s| {
      var c := CodeEnd(s, i);
      if s[i] == '#' {
        if IsQuote(s[i]) {
          assert false;
        }
        assert QuoteSpans(s, i) == QuoteSpans(s, i + 1);
        QuoteSpansShape(s, i + 1);
      } else if IsQuote(s[i]) && Closing(s, [s[i]], i + 1).Some? {
        var e := Closing(s, [s[i]], i + 1).value;
        CodeEndOutsideStrings(s, e);
        var r := QuoteSpans(s, i);
        forall k | 0 <= k < |r| ensures r[k].end <= c || r[k].start > c {
          if k > 0 {
            assert r[k] == QuoteSpans(s, e)[k - 1];
          }
        }
      } else {
        CodeEndOutsideStrings(s, i + 1);
      }
    }
  }

  /** Scanning stops at `c`, and no string is cut that the whole line would have closed before it. */
  lemma {:induction false} QuoteSpansPrefix(s: string, c: nat, i: nat)
    requires i <= c <= |s| && (c == |s| || s[c] == '#') && CodeEnd(s, i) == c
    ensures QuoteSpans(s[..c], i) == QuoteSpans(s, i)[..CountBefore(QuoteSpans(s, i), c)]
    decreases |s| - i
  {
    var p := s[..c];
    if i == c {
      if c < |s| {
        assert QuoteSpans(s, c) == QuoteSpans(s, c + 1);
        QuoteSpansAfter(s, c + 1, c);
      }
    } else {
      var q := s[i];
      assert p[i] == q;
      if IsQuote(q) && Closing(s, [q], i + 1).Some? {
        var e := Closing(s, [q], i + 1).value;
        ClosingPrefix(s, c, [q], i + 1);
        QuoteSpansPrefix(s, c, e);
        QuoteSpansCloseStep(s, c, i, e);
      } else {
        if IsQuote(q) {
          ClosingPrefix(s, c, [q], i + 1);
        }
        QuoteSpansPrefix(s, c, i + 1);
        assert QuoteSpans(s, i) == QuoteSpans(s, i + 1);
        assert QuoteSpans(p, i) == QuoteSpans(p, i + 1);
      }
    }
  }

  lemma QuoteSpansCloseStep(s: string, c: nat, i: nat, e: nat)
    requires i < e <= c <= |s| && IsQuote(s[i]) && Closing(s, [s[i]], i + 1) == Some(e)
    requires Closing(s[..c], [s[i]], i + 1) == Some(e)
    requires QuoteSpans(s[..c], e) == QuoteSpans(s, e)[..CountBefore(QuoteSpans(s, e), c)]
    ensures QuoteSpans(s[..c], i) == QuoteSpans(s, i)[..CountBefore(QuoteSpans(s, i), c)]
  {
    var p := s[..c];
    assert p[i] == s[i];
    var R := QuoteSpans(s, e);
    var n := CountBefore(R, c);
    assert QuoteSpans(s, i) == [Span(i, e)] + R;
    assert QuoteSpans(p, i) == [Span(i, e)] + QuoteSpans(p, e);
    assert ([Span(i, e)] + R)[1..] == R;
    assert CountBefore([Span(i, e)] + R, c) == 1 + n;
    assert ([Span(i, e)] + R)[..1 + n] == [Span(i, e)] + R[..n];
  }

  /**
   * With the corrected cut, the string tags of a line are exactly the line's
   * string literals that close before its comment, and no tag of the other
   * kinds reaches into the comment.
   */
  lemma CorrectedTags(line: string, keywords: set<string>, builtins: set<string>)
    ensures var c := CodeEnd(line, 0);
      var t := TagsOfLine(line, keywords, builtins);
      t.strings == QuoteSpans(line, 0)[..CountBefore(QuoteSpans(line, 0), c)] &&
      Ordered(t.keywords, 0, c) && Ordered(t.builtins, 0, c) && Ordered(t.strings, 0, c) &&
      (c < |line| ==> line[c] == '#')
  {
    QuoteSpansPrefix(line, CodeEnd(line, 0), 0);
    TagsOfScanBounds(line, CodeEnd(line, 0), keywords, builtins);
  }

  /** The number of leading spans that end by `c`. */
  function CountBefore(spans: seq<Span>, c: nat): (n: nat)
    ensures n <= |spans|
  {
    if spans == [] || spans[0].end > c then 0 else 1 + CountBefore(spans[1..], c)
  }

  lemma {:induction false} QuoteSpansAfter(s: string, i: nat, c: nat)
    requires c < i <= |s|
    ensures CountBefore(QuoteSpans(s, i), c) == 0
  {
    var r := QuoteSpans(s, i);
    QuoteSpansShape(s, i);
    if r != [] {
      assert r[0].start >= i;
    }
  }

  /** A string that closes within the first `c` characters closes there in the prefix too; one that does not, does not close in the prefix. */
  lemma {:induction false} ClosingPrefix(s: string, c: nat, d: string, j: nat)
    requires j <= c <= |s| && |d| == 1
    requires c == |s| || s[c] == '#'
    requires d != "#"
    ensures Closing(s[..c], d, j) == (if Closing(s, d, j).Some? && Closing(s, d, j).value <= c then Closing(s, d, j) else None)
    decreases |s| - j
  {
    var p := s[..c];
    if j + 1 <= c {
      assert p[j..j + 1] == s[j..j + 1];
      assert p[j] == s[j];
      if s[j..j + 1] != d && s[j] == '\\' && j + 1 < c {
        ClosingPrefix(s, c, d, j + 2);
      } else if s[j..j + 1] != d && s[j] != '\\' {
        ClosingPrefix(s, c, d, j + 1);
      }
    }
  }

  /** Every span of a line's tags lies within the line, and the spans of each kind are in order. */
  lemma TagsOfLineOrdered(line: string, keywords: set<string>, builtins: set<string>)
    ensures var t := TagsOfLine(line, keywords, builtins);
      Ordered(t.keywords, 0, |line|) && Ordered(t.builtins, 0, |line|) && Ordered(t.strings, 0, |line|) &&
      (t.comment.Some? ==> t.comment.value.start < t.comment.value.end <= |line|)
  {
    var t := TagsOfLine(line, keywords, builtins);
    var c := CodeEnd(line, 0);
    CorrectedTags(line, keywords, builtins);
    OrderedWidenHi(t.keywords, 0, c, |line|);
    OrderedWidenHi(t.builtins, 0, c, |line|);
    OrderedWidenHi(t.strings, 0, c, |line|);
  }
}
