/**
 * The value-level parts of the editor's key handlers: the bracket and quote
 * pairs, the line-comment toggle, and the filtering and case-insensitive
 * ordering of completion candidates.
 */
module Editing {
  import opened Wrappers
  import opened Chars

  //
  // Bracket and quote pairs.
  //

  /** The closing character for each opening one: `(`, `[`, `{` and the two quotes. */
  function CloserOf(c: char): (r: Option<char>)
    ensures r.Some? <==> c in {'(', '[', '{', '"', '\''}
    ensures c == '"' || c == '\'' ==> r == Some(c)
  {
    match c
    case '(' => Some(')')
    case '[' => Some(']')
    case '{' => Some('}')
    case '"' => Some('"')
    case '\'' => Some('\'')
    case _ => None
  }

  predicate IsCloser(c: char)
  {
    c in {')', ']', '}', '"', '\''}
  }

  /** Every closing character is the closer of an opening one, and only those. */
  lemma CloserOfIsCloser(c: char)
    ensures CloserOf(c).Some? ==> IsCloser(CloserOf(c).value)
    ensures IsCloser(c) ==> exists o | o in {'(', '[', '{', '"', '\''} :: CloserOf(o) == Some(c)
  {
    if c == ')' { assert CloserOf('(') == Some(c); }
    if c == ']' { assert CloserOf('[') == Some(c); }
    if c == '}' { assert CloserOf('{') == Some(c); }
    if c == '"' { assert CloserOf('"') == Some(c); }
    if c == '\'' { assert CloserOf('\'') == Some(c); }
  }

  //
  // Line comments.
  //

  /** The line's first non-blank character is `#`. */
  predicate Commented(line: string)
  {
    StartsWith(LStrip(line), "#")
  }

  /** Every line of `[first, last]` (numbered from 1) is commented. */
  predicate AllCommented(L: seq<string>, first: nat, last: nat)
    requires 1 <= first && last <= |L|
  {
    forall k :: first - 1 <= k < last ==> Commented(L[k])
  }

  /** The line with its first `#` removed; unchanged when it has none. */
  function Uncomment(line: string): (r: string)
    ensures Find(line, '#') < |line| ==> |r| == |line| - 1
    ensures Find(line, '#') == |line| ==> r == line
  {
    var k := Find(line, '#');
    if k < |line| then line[..k] + line[k + 1..] else line
  }

  /** The toggled line: uncommented when the whole range is commented, commented at column 0 otherwise. */
  function ToggleLine(line: string, uncomment: bool): string
  {
    if uncomment then Uncomment(line) else "#" + line
  }

  /** The lines after the comment toggle of `[first, last]`. */
  function Toggled(L: seq<string>, first: nat, last: nat): (R: seq<string>)
    requires 1 <= first && last <= |L|
    ensures |R| == |L|
  {
    var u := AllCommented(L, first, last);
    seq(|L|, k requires 0 <= k < |L| => if first <= k + 1 <= last then ToggleLine(L[k], u) else L[k])
  }

  /** Line `k` (from 0) after the toggle: toggled when it is in the range, the same otherwise. */
  lemma ToggledAt(L: seq<string>, first: nat, last: nat, k: nat)
    requires 1 <= first && last <= |L| && k < |L|
    ensures Toggled(L, first, last)[k] == if first <= k + 1 <= last then ToggleLine(L[k], AllCommented(L, first, last)) else L[k]
  {
  }

  /** A commented line has a `#`, and it is the first non-blank character. */
  lemma CommentedHash(line: string)
    requires Commented(line)
    ensures Find(line, '#') == LeadingSpaces(line) < |line|
  {
    var n := LeadingSpaces(line);
    assert LStrip(line)[0] == line[n];
  }

  /** Commenting a line and then uncommenting it gives the line back. */
  lemma UncommentComment(line: string)
    ensures Uncomment("#" + line) == line
  {
    assert ("#" + line)[0] == '#';
  }

  /** `"#" + line` is commented. */
  lemma CommentIsCommented(line: string)
    ensures Commented("#" + line)
  {
    assert LeadingSpaces("#" + line) == 0;
  }

  /** A range that is not wholly commented comes back unchanged after two toggles. */
  lemma ToggleTwice(L: seq<string>, first: nat, last: nat)
    requires 1 <= first <= last <= |L| && !AllCommented(L, first, last)
    ensures Toggled(Toggled(L, first, last), first, last) == L
  {
    var R := Toggled(L, first, last);
    forall k | first - 1 <= k < last ensures Commented(R[k]) {
      ToggledAt(L, first, last, k);
      CommentIsCommented(L[k]);
    }
    assert AllCommented(R, first, last);
    var R2 := Toggled(R, first, last);
    forall k | 0 <= k < |L| ensures R2[k] == L[k] {
      ToggledAt(L, first, last, k);
      ToggledAt(R, first, last, k);
      if first <= k + 1 <= last {
        UncommentComment(L[k]);
      }
    }
  }

  /** Uncommenting a wholly commented range removes, from each line, the `#` that follows its indentation. */
  lemma UncommentRemovesMarker(L: seq<string>, first: nat, last: nat, l: nat)
    requires 1 <= first <= l <= last <= |L| && AllCommented(L, first, last)
    ensures var line := L[l - 1]; var n := LeadingSpaces(line);
      n < |line| && line[n] == '#' && Toggled(L, first, last)[l - 1] == line[..n] + line[n + 1..]
  {
    assert Commented(L[l - 1]);
    CommentedHash(L[l - 1]);
    ToggledAt(L, first, last, l - 1);
  }

  //
  // Completion candidates.
  //

  /** The candidates kept for completion: names not starting with `__` that start with the prefix, in their original order. */
  function Candidates(names: seq<string>, prefix: string): (r: seq<string>)
    ensures forall x :: x in r ==> x in names && !StartsWith(x, "__") && StartsWith(x, prefix)
    ensures forall x :: x in names && !StartsWith(x, "__") && StartsWith(x, prefix) ==> x in r
    ensures |r| <= |names|
  {
    if names == [] then []
    else
      var rest := Candidates(names[1..], prefix);
      assert forall x :: x in names[1..] ==> x in names;
      if !StartsWith(names[0], "__") && StartsWith(names[0], prefix) then [names[0]] + rest else rest
  }

  /** A single name is kept exactly when it passes both tests. */
  lemma CandidatesSingle(x: string, prefix: string)
    ensures Candidates([x], prefix) == if !StartsWith(x, "__") && StartsWith(x, prefix) then [x] else []
  {
    assert [x][1..] == [];
  }

  /** The filter keeps the names' order: the candidates of two runs of names are those of the first run, then those of the second. */
  lemma {:induction false} CandidatesAppend(a: seq<string>, b: seq<string>, prefix: string)
    ensures Candidates(a + b, prefix) == Candidates(a, prefix) + Candidates(b, prefix)
  {
    if a == [] {
      assert a + b == b;
    } else {
      assert (a + b)[0] == a[0];
      assert (a + b)[1..] == a[1..] + b;
      CandidatesAppend(a[1..], b, prefix);
    }
  }

  /** Python's string order: lexicographic by code point. */
  predicate LexLe(a: string, b: string)
  {
    a == [] || (b != [] && (a[0] < b[0] || (a[0] == b[0] && LexLe(a[1..], b[1..]))))
  }

  lemma {:induction false} LexLeTotal(a: string, b: string)
    ensures LexLe(a, b) || LexLe(b, a)
  {
    if a != [] && b != [] && a[0] == b[0] {
      LexLeTotal(a[1..], b[1..]);
    }
  }

  lemma {:induction false} LexLeTrans(a: string, b: string, c: string)
    requires LexLe(a, b) && LexLe(b, c)
    ensures LexLe(a, c)
  {
    if a != [] && b != [] && c != [] && a[0] == b[0] && b[0] == c[0] {
      LexLeTrans(a[1..], b[1..], c[1..]);
    }
  }

  lemma {:induction false} LexLeRefl(a: string)
    ensures LexLe(a, a)
  {
    if a != [] {
      LexLeRefl(a[1..]);
    }
  }

  /** The sort key of `completions.sort(key=lambda x: x.lower())`. */
  predicate KeyLe(a: string, b: string)
  {
    LexLe(ToLower(a), ToLower(b))
  }

  predicate SortedByKey(s: seq<string>)
  {
    forall i, j :: 0 <= i < j < |s| ==> KeyLe(s[i], s[j])
  }

  /** The elements of `s` whose key is `k`, in order. */
  function WithKey(s: seq<string>, k: string): seq<string>
  {
    if s == [] then [] else (if ToLower(s[0]) == k then [s[0]] else []) + WithKey(s[1..], k)
  }

  /** Inserts `x` after every element whose key is not greater than its own. */
  function InsertByKey(t: seq<string>, x: string): seq<string>
  {
    if t == [] then [x]
    else if !KeyLe(t[0], x) then [x] + t
    else [t[0]] + InsertByKey(t[1..], x)
  }

  /** A stable sort by lower-cased key, as Python's `list.sort(key=...)` is. */
  function SortByLower(s: seq<string>): seq<string>
  {
    if s == [] then [] else InsertByKey(SortByLower(s[..|s| - 1]), s[|s| - 1])
  }

  lemma {:induction false} InsertByKeyContents(t: seq<string>, x: string)
    ensures multiset(InsertByKey(t, x)) == multiset(t) + multiset{x}
    decreases |t|
  {
    if t != [] && KeyLe(t[0], x) {
      InsertByKeyContents(t[1..], x);
      assert t == [t[0]] + t[1..];
      assert InsertByKey(t, x)[1..] == InsertByKey(t[1..], x);
    } else if t != [] {
      assert InsertByKey(t, x)[1..] == t;
    }
  }

  lemma {:induction false} InsertByKeyOrder(t: seq<string>, x: string)
    requires SortedByKey(t)
    ensures SortedByKey(InsertByKey(t, x))
    decreases |t|
  {
    if t != [] && !KeyLe(t[0], x) {
      InsertFrontOrder(t, x);
    } else if t != [] {
      var t' := t[1..];
      assert SortedByKey(t') by {
        forall i, j | 0 <= i < j < |t'| ensures KeyLe(t'[i], t'[j]) {
          assert t'[i] == t[i + 1] && t'[j] == t[j + 1];
        }
      }
      InsertByKeyOrder(t', x);
      HeadBelowInsert(t, x);
      ConsSorted(t[0], InsertByKey(t', x));
    }
  }

  /** An element whose key is at most every key of a sorted sequence can go in front. */
  lemma ConsSorted(y: string, r: seq<string>)
    requires SortedByKey(r) && forall j :: 0 <= j < |r| ==> KeyLe(y, r[j])
    ensures SortedByKey([y] + r)
  {
    var q := [y] + r;
    forall i, j | 0 <= i < j < |q| ensures KeyLe(q[i], q[j]) {
      if i > 0 {
        assert q[i] == r[i - 1] && q[j] == r[j - 1];
      }
    }
  }

  /** `x` goes in front when the first key is larger than its own. */
  lemma InsertFrontOrder(t: seq<string>, x: string)
    requires SortedByKey(t) && t != [] && !KeyLe(t[0], x)
    ensures SortedByKey(InsertByKey(t, x))
  {
    forall j | 0 <= j < |t| ensures KeyLe(x, t[j]) {
      LexLeTotal(ToLower(t[0]), ToLower(x));
      if j > 0 {
        LexLeTrans(ToLower(x), ToLower(t[0]), ToLower(t[j]));
      }
    }
    ConsSorted(x, t);
  }

  /** When `x` goes after the first element, that element's key is at most every key of the rest. */
  lemma HeadBelowInsert(t: seq<string>, x: string)
    requires SortedByKey(t) && t != [] && KeyLe(t[0], x)
    ensures forall j :: 0 <= j < |InsertByKey(t[1..], x)| ==> KeyLe(t[0], InsertByKey(t[1..], x)[j])
  {
    var t' := t[1..];
    var r' := InsertByKey(t', x);
    InsertByKeyContents(t', x);
    forall j | 0 <= j < |r'| ensures KeyLe(t[0], r'[j]) {
      var y := r'[j];
      assert y in multiset(r');
      if y != x {
        assert y in t';
        var m :| 0 <= m < |t'| && t'[m] == y;
        assert t[m + 1] == y;
      }
    }
  }

  /** Inserting `x` appends it to the elements sharing its key, and leaves the other keys' elements alone. */
  lemma {:induction false} InsertByKeyStable(t: seq<string>, x: string)
    requires SortedByKey(t)
    ensures WithKey(InsertByKey(t, x), ToLower(x)) == WithKey(t, ToLower(x)) + [x]
    ensures forall k :: k != ToLower(x) ==> WithKey(InsertByKey(t, x), k) == WithKey(t, k)
    decreases |t|
  {
    var r := InsertByKey(t, x);
    if t == [] {
      assert [x][1..] == [];
    } else if !KeyLe(t[0], x) {
      NoneWithKeyAfter(t, x);
      assert r[1..] == t;
      forall k | k != ToLower(x) ensures WithKey(r, k) == WithKey(t, k) {
      }
    } else {
      var t' := t[1..];
      forall i, j | 0 <= i < j < |t'| ensures KeyLe(t'[i], t'[j]) {
        assert t'[i] == t[i + 1] && t'[j] == t[j + 1];
      }
      InsertByKeyStable(t', x);
      assert r[1..] == InsertByKey(t', x);
    }
  }

  /** When `x` goes in front of a sorted `t`, no element of `t` shares its key. */
  lemma NoneWithKeyAfter(t: seq<string>, x: string)
    requires SortedByKey(t) && t != [] && !KeyLe(t[0], x)
    ensures WithKey(t, ToLower(x)) == []
  {
    forall j | 0 <= j < |t| ensures ToLower(t[j]) != ToLower(x) {
      LexLeRefl(ToLower(t[0]));
      assert KeyLe(t[0], t[j]);
    }
    NoKeyNoneWithKey(t, ToLower(x));
  }

  lemma {:induction false} NoKeyNoneWithKey(t: seq<string>, k: string)
    requires forall j :: 0 <= j < |t| ==> ToLower(t[j]) != k
    ensures WithKey(t, k) == []
  {
    if t != [] {
      NoKeyNoneWithKey(t[1..], k);
    }
  }

  lemma {:induction false} WithKeyAppend(s: seq<string>, x: string, k: string)
    ensures WithKey(s + [x], k) == WithKey(s, k) + (if ToLower(x) == k then [x] else [])
  {
    if s != [] {
      assert (s + [x])[1..] == s[1..] + [x];
      WithKeyAppend(s[1..], x, k);
    } else {
      assert [x][1..] == [];
    }
  }

  /**
   * The completion order: sorted case-insensitively, a permutation of the
   * input, and stable (names with the same lower-cased key keep their
   * relative order).  These three facts determine the order completely, so
   * it is that of Python's `list.sort`.
   */
  lemma {:induction false} SortByLowerCorrect(s: seq<string>)
    ensures SortedByKey(SortByLower(s))
    ensures multiset(SortByLower(s)) == multiset(s)
    ensures forall k :: WithKey(SortByLower(s), k) == WithKey(s, k)
    decreases |s|
  {
    if s != [] {
      var s' := s[..|s| - 1];
      var x := s[|s| - 1];
      SortByLowerCorrect(s');
      InsertByKeyOrder(SortByLower(s'), x);
      InsertByKeyContents(SortByLower(s'), x);
      InsertByKeyStable(SortByLower(s'), x);
      assert s == s' + [x];
      forall k ensures WithKey(SortByLower(s), k) == WithKey(s, k) {
        WithKeyAppend(s', x, k);
      }
    }
  }

  /** `pri` against `print`, `__print__`, `printf` and `open` keeps `print` and `printf`, in that order. */
  lemma CandidatesExample()
    ensures Candidates(["printf", "__print__", "print", "open"], "pri") == ["printf", "print"]
  {
    var names := ["printf", "__print__", "print", "open"];
    assert "open"[..3] == "ope";
    assert Candidates(names[3..], "pri") == [] by {
      assert names[3..][1..] == [];
    }
    assert "print"[..2] == "pr" && "print"[..3] == "pri";
    assert Candidates(names[2..], "pri") == ["print"] by {
      assert names[2..][1..] == names[3..];
    }
    assert "__print__"[..2] == "__";
    assert Candidates(names[1..], "pri") == ["print"] by {
      assert names[1..][1..] == names[2..];
    }
    assert "printf"[..2] == "pr" && "printf"[..3] == "pri";
  }

  /** `print` sorts before `printf`. */
  lemma SortExample()
    ensures SortByLower(["printf", "print"]) == ["print", "printf"]
  {
    var c := ["printf", "print"];
    assert ToLower("print") == "print" && ToLower("printf") == "printf";
    assert !LexLe("printf", "print") by {
      assert "printf"[1..][1..][1..][1..][1..] == "f";
      assert "print"[1..][1..][1..][1..][1..] == "";
    }
    assert c[..|c| - 1] == ["printf"];
    assert SortByLower(["printf"]) == ["printf"] by {
      assert ["printf"][..0] == [];
    }
  }
}
