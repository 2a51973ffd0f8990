/**
 * What the editor's key handlers and the highlighter do to the widget, as
 * functions of the widget's state: the guard of the smart backspace, the
 * target of a word jump, the completion edit, the loops of the block indent
 * and of the comment toggle, and the tags a recolour leaves.  The methods of
 * `PatchedText` are proved to produce exactly these.
 */
module EditorOps {
  import opened Wrappers
  import opened Chars
  import opened Buffer
  import opened Words
  import opened Highlight
  import opened Editing
  import opened TkText

  //
  // Smart backspace.
  //

  /**
   * The backspace handler's pair test as written: the character before the
   * cursor is read at `insert-1c`, which Tk clamps to `1.0`, so at the very
   * start of the text the character after the cursor is read twice.
   */
  predicate PairAroundAsWritten(L: seq<string>, p: Pos)
    requires |L| >= 1 && ValidPos(L, p)
  {
    var prev := CharAt(L, Retreat(L, p, 1));
    CloserOf(prev).Some? && CharAt(L, p) == CloserOf(prev).value
  }

  /** The pair test as intended: it applies only when there is a character before the cursor. */
  predicate PairAround(L: seq<string>, p: Pos)
    requires |L| >= 1 && ValidPos(L, p)
  {
    Offset(L, p) > 0 && PairAroundAsWritten(L, p)
  }

  /** The intended test holds exactly when the cursor sits between an opening character and its closer on one line. */
  lemma PairAroundInLine(L: seq<string>, p: Pos)
    requires |L| >= 1 && ValidPos(L, p)
    ensures PairAround(L, p) <==>
      var line := L[p.line - 1];
      0 < p.col < |line| && CloserOf(line[p.col - 1]).Some? && line[p.col] == CloserOf(line[p.col - 1]).value
  {
    var line := L[p.line - 1];
    OffsetExtremes(L, p);
    if p.col > 0 {
      RetreatInLine(L, p, 1);
    } else {
      RetreatAtLineStart(L, p);
    }
  }

  /**
   * At `1.0`, when the text starts with a quote, the test as written succeeds
   * and its deletion, from `1.0-1c` (clamped to `1.0`) to `1.0+1c`, removes
   * the quote after the cursor; the intended test fails.
   */
  lemma BackspaceAtTextStartAsWritten(L: seq<string>)
    requires |L| >= 1 && |L[0]| >= 1 && IsQuote(L[0][0])
    ensures PairAroundAsWritten(L, Pos(1, 0))
    ensures Retreat(L, Pos(1, 0), 1) == Pos(1, 0) && Advance(L, Pos(1, 0), 1) == Pos(1, 1)
    ensures DeleteRange(L, Pos(1, 0), Pos(1, 1)) == L[0 := L[0][1..]]
    ensures !PairAround(L, Pos(1, 0))
  {
    RetreatAtLineStart(L, Pos(1, 0));
    AdvanceInLine(L, Pos(1, 0), 1);
    OffsetExtremes(L, Pos(1, 0));
    assert L[0][..0] + L[0][1..] == L[0][1..];
  }

  /** The smart backspace between a pair deletes the character on each side of the cursor, on its line. */
  lemma BackspacePairInLine(t: Text)
    requires Valid(t) && PairAround(t.lines, t.cursor)
    ensures var p := t.cursor; var line := t.lines[p.line - 1];
      0 < p.col < |line| &&
      Retreat(t.lines, p, 1) == Pos(p.line, p.col - 1) && Advance(t.lines, p, 1) == Pos(p.line, p.col + 1) &&
      Delete(t, Pos(p.line, p.col - 1), Pos(p.line, p.col + 1)).lines == t.lines[p.line - 1 := line[..p.col - 1] + line[p.col + 1..]] &&
      Delete(t, Pos(p.line, p.col - 1), Pos(p.line, p.col + 1)).cursor == Pos(p.line, p.col - 1)
  {
    var p := t.cursor;
    PairAroundInLine(t.lines, p);
    RetreatInLine(t.lines, p, 1);
    AdvanceInLine(t.lines, p, 1);
    DeleteInLineText(t, p.line, p.col - 1, p.col + 1);
  }

  /** After four blanks the smart backspace deletes them, and only them. */
  lemma BackspaceIndentInLine(t: Text)
    requires Valid(t) && EndsWith(t.lines[t.cursor.line - 1][..t.cursor.col], Indent)
    ensures var p := t.cursor; var line := t.lines[p.line - 1];
      4 <= p.col && line[p.col - 4..p.col] == Indent && Retreat(t.lines, p, 4) == Pos(p.line, p.col - 4) &&
      Delete(t, Pos(p.line, p.col - 4), p).lines == t.lines[p.line - 1 := line[..p.col - 4] + line[p.col..]] &&
      Delete(t, Pos(p.line, p.col - 4), p).cursor == Pos(p.line, p.col - 4)
  {
    var p := t.cursor;
    var line := t.lines[p.line - 1];
    assert line[..p.col][p.col - 4..] == line[p.col - 4..p.col];
    RetreatInLine(t.lines, p, 4);
    DeleteInLineText(t, p.line, p.col - 4, p.col);
  }

  //
  // Auto-closing pairs.
  //

  /** Typing an opening character without a selection: the pair goes in at the cursor, which ends up between them. */
  function Paired(t: Text, c: char): (r: Text)
    requires Valid(t) && CloserOf(c).Some?
    ensures Valid(r)
    ensures var p := t.cursor; var line := t.lines[p.line - 1];
      r.lines == t.lines[p.line - 1 := line[..p.col] + [c, CloserOf(c).value] + line[p.col..]] &&
      r.cursor == Pos(p.line, p.col + 1)
  {
    var p := t.cursor;
    var s := [c, CloserOf(c).value];
    assert NoNewline(s);
    InsertInLine(t, p, s);
    var t1 := Insert(t, p, s);
    AdvanceInLine(t1.lines, p, 1);
    MarkSet(t1, Advance(t1.lines, p, 1))
  }

  /**
   * Typing an opening character over a selection: the selected text is
   * deleted and put back wrapped in the pair, and the cursor is moved to
   * `start + len(char + selected) + 1c`.
   */
  function Wrapped(t: Text, c: char): (r: Text)
    requires Valid(t) && CloserOf(c).Some? && t.sel.Some?
    ensures Valid(r)
  {
    var a := t.sel.value.first;
    var b := t.sel.value.last;
    var selected := GetText(t.lines, a, b);
    var t1 := Delete(t, a, b);
    DeleteKeepsStart(t.lines, a, b);
    var t2 := Insert(t1, a, [c] + selected + [CloserOf(c).value]);
    InsertKeepsStart(t1.lines, a, [c] + selected + [CloserOf(c).value]);
    MarkSet(t2, Advance(t2.lines, a, |[c] + selected| + 1))
  }

  /** Deleting exactly the selected text removes the selection. */
  lemma DeleteSelection(t: Text)
    requires Valid(t) && t.sel.Some?
    ensures Delete(t, t.sel.value.first, t.sel.value.last).sel.None?
  {
    OffsetMonotone(t.lines, t.sel.value.first, t.sel.value.last);
  }

  lemma WrapRegroup(J: string, oa: nat, ob: nat, J1: string, J2: string, c: char, d: char)
    requires oa <= ob <= |J| && J1 == J[..oa] + J[ob..]
    requires J2 == J1[..oa] + ([c] + J[oa..ob] + [d]) + J1[oa..]
    ensures J2 == J[..oa] + [c] + J[oa..ob] + [d] + J[ob..]
  {
    assert J1[..oa] == J[..oa] && J1[oa..] == J[ob..];
  }

  /**
   * The selected text ends up wrapped in the pair, the selection goes away,
   * and the cursor lands after the closing character.
   */
  lemma WrappedText(t: Text, c: char)
    requires Valid(t) && CloserOf(c).Some? && t.sel.Some?
    ensures var a := t.sel.value.first; var b := t.sel.value.last; var J := Join(t.lines); var r := Wrapped(t, c);
      Offset(t.lines, a) <= Offset(t.lines, b) <= |J| &&
      Join(r.lines) == J[..Offset(t.lines, a)] + [c] + J[Offset(t.lines, a)..Offset(t.lines, b)] + [CloserOf(c).value] + J[Offset(t.lines, b)..] &&
      Offset(r.lines, r.cursor) == Offset(t.lines, b) + 2 &&
      r.sel.None?
  {
    var a := t.sel.value.first;
    var b := t.sel.value.last;
    var selected := GetText(t.lines, a, b);
    var t1 := Delete(t, a, b);
    DeleteFlat(t, a, b);
    DeleteKeepsStart(t.lines, a, b);
    DeleteSelection(t);
    var s := [c] + selected + [CloserOf(c).value];
    var t2 := Insert(t1, a, s);
    InsertFlat(t1, a, s);
    InsertKeepsStart(t1.lines, a, s);
    var J := Join(t.lines);
    WrapRegroup(J, Offset(t.lines, a), Offset(t.lines, b), Join(t1.lines), Join(t2.lines), c, CloserOf(c).value);
    LenJoin(t2.lines);
  }

  lemma PairSplice(A: string, c: nat, x: char, y: char, line: string)
    requires c <= |A| && line == A[..c] + [x, y] + A[c..]
    ensures c + 1 < |line| && line[c] == x && line[c + 1] == y && line[..c] + line[c + 2..] == A
  {
    assert line[..c] == A[..c] && line[c + 2..] == A[c..];
  }

  /** Typing an opening character and then the smart backspace gives the lines back. */
  lemma BackspaceUndoesAutoclose(t: Text, c: char)
    requires Valid(t) && CloserOf(c).Some?
    ensures var t' := Paired(t, c);
      PairAround(t'.lines, t'.cursor) &&
      Delete(t', Retreat(t'.lines, t'.cursor, 1), Advance(t'.lines, t'.cursor, 1)).lines == t.lines
  {
    var p := t.cursor;
    var t' := Paired(t, c);
    var A := t.lines[p.line - 1];
    var line := t'.lines[p.line - 1];
    PairSplice(A, p.col, c, CloserOf(c).value, line);
    PairAroundInLine(t'.lines, t'.cursor);
    BackspacePairInLine(t');
    assert t.lines[p.line - 1 := line][p.line - 1 := A] == t.lines;
  }

  /** Typing the closing character that follows the cursor steps over it: `insert+1c` stays on the line. */
  lemma SkipCloser(L: seq<string>, p: Pos, c: char)
    requires |L| >= 1 && ValidPos(L, p) && IsCloser(c) && CharAt(L, p) == c
    ensures p.col < |L[p.line - 1]| && L[p.line - 1][p.col] == c
    ensures Advance(L, p, 1) == Pos(p.line, p.col + 1)
  {
    AdvanceInLine(L, p, 1);
  }

  //
  // Delete-previous-word.
  //

  /** `delete_last_word`: the word characters just before the cursor on its line are deleted (`insert-Nc` to `insert`). */
  function DeletedWord(t: Text): (r: Text)
    requires Valid(t)
    ensures Valid(r)
  {
    var p := t.cursor;
    var n := p.col - WordRunStart(t.lines[p.line - 1][..p.col], p.col);
    if n > 0 then Delete(t, Retreat(t.lines, p, n), p) else t
  }

  /** The steps of `delete_last_word` on the text: the line up to the cursor is read, the word run at its end found and deleted. */
  method DeleteWordBefore(t: Text) returns (r: Text)
    requires Valid(t)
    ensures r == DeletedWord(t)
  {
    var p := t.cursor;
    var currentLine := GetText(t.lines, Pos(p.line, 0), p);
    GetTextToPos(t.lines, p);
    var wordEnd := |currentLine|;
    var wordStart := FindWordStart(currentLine);
    assert wordEnd - wordStart == p.col - WordRunStart(t.lines[p.line - 1][..p.col], p.col);
    r := t;
    if wordStart < wordEnd {
      r := Delete(t, Retreat(t.lines, p, wordEnd - wordStart), p);
    }
  }

  /**
   * Delete-previous-word removes exactly the maximal run of word characters
   * that ends at the cursor, within the cursor's line, and leaves the cursor
   * where the run started; nothing changes when no word character precedes
   * the cursor.
   */
  lemma DeletedWordText(t: Text)
    requires Valid(t)
    ensures var p := t.cursor; var line := t.lines[p.line - 1]; var r := DeletedWord(t);
      exists ws | 0 <= ws <= p.col <= |line| ::
        AllWord(line, ws, p.col) && (ws == 0 || !IsWordChar(line[ws - 1])) &&
        r.lines == t.lines[p.line - 1 := line[..ws] + line[p.col..]] &&
        r.cursor == (if ws < p.col then Pos(p.line, ws) else p)
    ensures var p := t.cursor; var line := t.lines[p.line - 1];
      (p.col == 0 || !IsWordChar(line[p.col - 1])) ==> DeletedWord(t) == t
  {
    var p := t.cursor;
    var line := t.lines[p.line - 1];
    var ws := WordRunStart(line[..p.col], p.col);
    WordRunInLine(line, p.col);
    if ws < p.col {
      DeletedWordRun(t, ws);
    } else {
      DeletedWordNone(t);
    }
  }

  /** The run found in the text before column `col` is a maximal run of word characters of the whole line. */
  lemma WordRunInLine(line: string, col: nat)
    requires col <= |line|
    ensures var ws := WordRunStart(line[..col], col);
      AllWord(line, ws, col) && (ws == 0 || !IsWordChar(line[ws - 1]))
  {
    var pre := line[..col];
    var ws := WordRunStart(pre, col);
    forall k | ws <= k < col ensures IsWordChar(line[k]) {
      assert pre[k] == line[k];
    }
    assert ws > 0 ==> pre[ws - 1] == line[ws - 1];
  }

  lemma DeletedWordRun(t: Text, ws: nat)
    requires Valid(t) && ws == WordRunStart(t.lines[t.cursor.line - 1][..t.cursor.col], t.cursor.col) < t.cursor.col
    ensures var p := t.cursor; var line := t.lines[p.line - 1];
      DeletedWord(t).lines == t.lines[p.line - 1 := line[..ws] + line[p.col..]] && DeletedWord(t).cursor == Pos(p.line, ws)
  {
    var p := t.cursor;
    assert Retreat(t.lines, p, p.col - ws) == Pos(p.line, ws) by {
      RetreatInLine(t.lines, p, p.col - ws);
    }
    assert DeletedWord(t) == Delete(t, Pos(p.line, ws), p);
    DeleteInLineText(t, p.line, ws, p.col);
  }

  lemma DeletedWordNone(t: Text)
    requires Valid(t) && WordRunStart(t.lines[t.cursor.line - 1][..t.cursor.col], t.cursor.col) == t.cursor.col
    ensures var p := t.cursor; var line := t.lines[p.line - 1];
      DeletedWord(t) == t && t.lines[p.line - 1 := line[..p.col] + line[p.col..]] == t.lines
  {
    var p := t.cursor;
    var line := t.lines[p.line - 1];
    assert line[..p.col] + line[p.col..] == line;
  }

  //
  // Word jumps.
  //

  /** Where a word jump from `p` lands (`_jump_word`). */
  function JumpTarget(L: seq<string>, p: Pos, right: bool): (r: Pos)
    requires |L| >= 1 && ValidPos(L, p)
    ensures ValidPos(L, r)
  {
    var line := L[p.line - 1];
    if right then
      var i := RightStop(line[p.col..]);
      Advance(L, p, if i == 0 then 1 else i)
    else
      var i := LeftStop(line[..p.col]);
      if i != p.col then Pos(p.line, i) else Retreat(L, p, 1)
  }

  /** The index `_jump_word` computes with its two word scans. */
  method JumpIndex(L: seq<string>, cur: Pos, right: bool) returns (q: Pos)
    requires |L| >= 1 && ValidPos(L, cur)
    ensures q == JumpTarget(L, cur, right)
  {
    var line := L[cur.line - 1];
    if right {
      var i := ScanRight(line[cur.col..]);
      q := Advance(L, cur, if i == 0 then 1 else i);
    } else {
      var i := ScanLeft(line[..cur.col]);
      q := if i != cur.col then Pos(cur.line, i) else Retreat(L, cur, 1);
    }
  }

  /**
   * A jump to the right lands after the blanks and the word that follow the
   * cursor on its line; when there are none it moves one character, onto the
   * next line at a line end.  It always moves forward unless the cursor is at
   * the end of the text.
   */
  lemma JumpRight(L: seq<string>, p: Pos)
    requires |L| >= 1 && ValidPos(L, p)
    ensures var line := L[p.line - 1]; var i := RightStop(line[p.col..]);
      (i > 0 ==> JumpTarget(L, p, true) == Pos(p.line, p.col + i)) &&
      (i == 0 && p.col < |line| ==> JumpTarget(L, p, true) == Pos(p.line, p.col + 1)) &&
      (i == 0 && p.col == |line| && p.line < |L| ==> JumpTarget(L, p, true) == Pos(p.line + 1, 0))
    ensures Offset(L, JumpTarget(L, p, true)) > Offset(L, p) || p == EndPos(L)
  {
    var line := L[p.line - 1];
    var i := RightStop(line[p.col..]);
    OffsetExtremes(L, p);
    if i > 0 {
      AdvanceInLine(L, p, i);
    } else if p.col < |line| {
      AdvanceInLine(L, p, 1);
    } else {
      AdvanceAtLineEnd(L, p);
    }
  }

  /**
   * A jump to the left lands at the start of the word before the blanks that
   * precede the cursor on its line; when there are none it moves back one
   * character, onto the previous line's end at a line start.  It always moves
   * backward unless the cursor is at `1.0`.
   */
  lemma JumpLeft(L: seq<string>, p: Pos)
    requires |L| >= 1 && ValidPos(L, p)
    ensures var line := L[p.line - 1]; var i := LeftStop(line[..p.col]);
      (i < p.col ==> JumpTarget(L, p, false) == Pos(p.line, i)) &&
      (i == p.col && p.col > 0 ==> JumpTarget(L, p, false) == Pos(p.line, p.col - 1)) &&
      (p.col == 0 && p.line > 1 ==> JumpTarget(L, p, false) == Pos(p.line - 1, |L[p.line - 2]|))
    ensures Offset(L, JumpTarget(L, p, false)) < Offset(L, p) || p == Pos(1, 0)
  {
    var line := L[p.line - 1];
    var i := LeftStop(line[..p.col]);
    OffsetExtremes(L, p);
    if i < p.col {
      assert Offset(L, Pos(p.line, i)) < Offset(L, p);
    } else if p.col > 0 {
      RetreatInLine(L, p, 1);
    } else {
      RetreatAtLineStart(L, p);
    }
  }

  /**
   * The `sel` tag after `tag_remove("sel", "1.0", "end")` and
   * `tag_add("sel", start, end)` with the two indices put in order: it spans
   * from the earlier to the later one, and there is none when they are equal.
   */
  function SelBetween(L: seq<string>, a: Pos, b: Pos): (r: Option<Range>)
    requires ValidPos(L, a) && ValidPos(L, b)
    ensures SelValid(L, r)
    ensures r.Some? <==> a != b
    ensures r.Some? ==> r.value == Range(a, b) || r.value == Range(b, a)
  {
    if PosLt(a, b) then Some(Range(a, b)) else if PosLt(b, a) then Some(Range(b, a)) else None
  }

  //
  // Completion.
  //

  /** The completion prefix: the word characters just before the cursor on its line. */
  function PrefixAt(L: seq<string>, p: Pos): (r: string)
    requires ValidPos(L, p)
    ensures |r| <= p.col
  {
    WordSuffix(L[p.line - 1][..p.col])
  }

  /** The identifier before the cursor, read the way the completion handlers read it: the line up to the cursor, then its trailing word characters. */
  method CursorPrefix(L: seq<string>, p: Pos) returns (prefix: string)
    requires ValidPos(L, p)
    ensures prefix == PrefixAt(L, p)
  {
    var currentLine := GetText(L, Pos(p.line, 0), p);
    GetTextToPos(L, p);
    prefix := ExtractPrefix(currentLine);
  }

  /** Strips of a word-character prefix: `prefix.strip()` is empty only when the prefix is. */
  lemma StripPrefixEmpty(L: seq<string>, p: Pos)
    requires ValidPos(L, p)
    ensures LStrip(PrefixAt(L, p)) == [] <==> PrefixAt(L, p) == []
  {
    var w := PrefixAt(L, p);
    WordSuffixMaximal(L[p.line - 1][..p.col]);
    if w != [] {
      assert IsWordChar(w[0]);
      assert LeadingSpaces(w) == 0;
    }
  }

  /** The first half of `insert_completion`: the prefix before the cursor, when there is one, is deleted (`insert-Nc` to `insert`). */
  function DeletedPrefix(t: Text): (r: Text)
    requires Valid(t)
    ensures Valid(r)
  {
    var p := t.cursor;
    var n := |PrefixAt(t.lines, p)|;
    if n > 0 then Delete(t, Retreat(t.lines, p, n), p) else t
  }

  /** `insert_completion`: the prefix is deleted and `name` inserted at the cursor. */
  function Completed(t: Text, name: string): (r: Text)
    requires Valid(t)
    ensures Valid(r)
  {
    var t1 := DeletedPrefix(t);
    Insert(t1, t1.cursor, name)
  }

  lemma DeletedPrefixText(t: Text)
    requires Valid(t)
    ensures Offset(t.lines, t.cursor) <= |Join(t.lines)| && |PrefixAt(t.lines, t.cursor)| <= Offset(t.lines, t.cursor)
    ensures var J := Join(t.lines); var o := Offset(t.lines, t.cursor); var n := |PrefixAt(t.lines, t.cursor)|;
      var r := DeletedPrefix(t);
      Join(r.lines) == J[..o - n] + J[o..] && Offset(r.lines, r.cursor) == o - n
  {
    var p := t.cursor;
    var n := |PrefixAt(t.lines, p)|;
    OffsetBound(t.lines, p);
    var J := Join(t.lines);
    var o := Offset(t.lines, p);
    if n == 0 {
      assert J[..o] + J[o..] == J;
    } else {
      RetreatInLine(t.lines, p, n);
      DeleteFlat(t, Retreat(t.lines, p, n), p);
    }
  }

  lemma CompleteRegroup(J: string, o: nat, n: nat, J1: string, J2: string, name: string)
    requires n <= o <= |J| && J1 == J[..o - n] + J[o..]
    requires J2 == J1[..o - n] + name + J1[o - n..]
    ensures J2 == J[..o - n] + name + J[o..]
  {
    assert J1[..o - n] == J[..o - n] && J1[o - n..] == J[o..];
  }

  /** The completion replaces the prefix before the cursor by `name` and leaves the cursor after it. */
  lemma CompletedText(t: Text, name: string)
    requires Valid(t)
    ensures Offset(t.lines, t.cursor) <= |Join(t.lines)| && |PrefixAt(t.lines, t.cursor)| <= Offset(t.lines, t.cursor)
    ensures var J := Join(t.lines); var o := Offset(t.lines, t.cursor); var n := |PrefixAt(t.lines, t.cursor)|;
      var r := Completed(t, name);
      Join(r.lines) == J[..o - n] + name + J[o..] && Offset(r.lines, r.cursor) == o - n + |name|
  {
    DeletedPrefixText(t);
    var t1 := DeletedPrefix(t);
    var r := Insert(t1, t1.cursor, name);
    InsertFlat(t1, t1.cursor, name);
    CompleteRegroup(Join(t.lines), Offset(t.lines, t.cursor), |PrefixAt(t.lines, t.cursor)|, Join(t1.lines), Join(r.lines), name);
  }

  //
  // Block indent and the comment toggle.
  //

  const Indent := "    "

  /** `L` with four spaces put in front of lines `first` to `l - 1`. */
  function IndentedLines(L: seq<string>, first: nat, l: nat): (R: seq<string>)
  {
    seq(|L|, k requires 0 <= k < |L| => if first - 1 <= k < l - 1 then Indent + L[k] else L[k])
  }

  lemma IndentedLinesStep(L: seq<string>, first: nat, l: nat)
    requires 1 <= first < l <= |L| + 1
    ensures |IndentedLines(L, first, l - 1)| == |L|
    ensures IndentedLines(L, first, l - 1)[l - 2] == L[l - 2]
    ensures IndentedLines(L, first, l) == IndentedLines(L, first, l - 1)[l - 2 := Indent + L[l - 2]]
  {
  }

  /** `L` with lines `first` to `l - 1` toggled. */
  function ToggledLines(L: seq<string>, first: nat, l: nat, uncomment: bool): (R: seq<string>)
  {
    seq(|L|, k requires 0 <= k < |L| => if first - 1 <= k < l - 1 then ToggleLine(L[k], uncomment) else L[k])
  }

  lemma ToggledLinesStep(L: seq<string>, first: nat, l: nat, uncomment: bool)
    requires 1 <= first < l <= |L| + 1
    ensures |ToggledLines(L, first, l - 1, uncomment)| == |L|
    ensures ToggledLines(L, first, l - 1, uncomment)[l - 2] == L[l - 2]
    ensures ToggledLines(L, first, l, uncomment) ==
      ToggledLines(L, first, l - 1, uncomment)[l - 2 := ToggleLine(L[l - 2], uncomment)]
  {
  }

  /** `insert(l.0, s)` for text `s` without a newline: `s` is put in front of line `l`. */
  function PrependStep(t: Text, l: nat, s: string): (r: Text)
    requires Valid(t) && 1 <= l <= |t.lines| && NoNewline(s)
    ensures Valid(r) && |r.lines| == |t.lines|
  {
    InsertAtInLine(t.lines, Pos(l, 0), s);
    Insert(t, Pos(l, 0), s)
  }

  lemma PrependStepLines(t: Text, l: nat, s: string)
    requires Valid(t) && 1 <= l <= |t.lines| && NoNewline(s)
    ensures PrependStep(t, l, s).lines == t.lines[l - 1 := s + t.lines[l - 1]]
  {
    InsertAtInLine(t.lines, Pos(l, 0), s);
    assert t.lines[l - 1][..0] + s + t.lines[l - 1][0..] == s + t.lines[l - 1];
  }

  lemma IndentNoNewline()
    ensures NoNewline(Indent) && NoNewline("#")
  {
  }

  /** The widget after the block-indent loop has handled lines `first` to `l - 1`. */
  function IndentUpTo(t: Text, first: nat, l: nat): (r: Text)
    requires Valid(t) && 1 <= first <= l <= |t.lines| + 1
    ensures Valid(r) && |r.lines| == |t.lines|
    decreases l
  {
    if l == first then t
    else
      var r := IndentUpTo(t, first, l - 1);
      IndentNoNewline();
      PrependStep(r, l - 1, Indent)
  }

  /** The block-indent loop of `show_autocomplete`: four spaces are inserted at the start of lines `first` to `last`. */
  method IndentLines(t0: Text, first: nat, last: nat) returns (t: Text)
    requires Valid(t0) && 1 <= first <= last <= |t0.lines|
    ensures t == IndentUpTo(t0, first, last + 1)
  {
    t := t0;
    var line := first;
    while line <= last
      invariant first <= line <= last + 1
      invariant t == IndentUpTo(t0, first, line)
    {
      IndentNoNewline();
      t := Insert(t, Pos(line, 0), Indent);
      line := line + 1;
    }
  }

  /** The block-indent loop puts four spaces in front of exactly the lines it has handled. */
  lemma {:induction false} IndentUpToLines(t: Text, first: nat, l: nat)
    requires Valid(t) && 1 <= first <= l <= |t.lines| + 1
    ensures IndentUpTo(t, first, l).lines == IndentedLines(t.lines, first, l)
    decreases l
  {
    if l == first {
      assert IndentedLines(t.lines, first, l) == t.lines;
    } else {
      IndentUpToLines(t, first, l - 1);
      IndentedLinesStep(t.lines, first, l);
      IndentNoNewline();
      PrependStepLines(IndentUpTo(t, first, l - 1), l - 1, Indent);
    }
  }

  /** The uncomment step for line `l`: its first `#`, if any, is deleted. */
  function UncommentStep(t: Text, l: nat): (r: Text)
    requires Valid(t) && 1 <= l <= |t.lines|
    ensures Valid(r) && |r.lines| == |t.lines|
  {
    var k := Find(t.lines[l - 1], '#');
    if k < |t.lines[l - 1]| then
      DeleteInLineText(t, l, k, k + 1);
      Delete(t, Pos(l, k), Pos(l, k + 1))
    else t
  }

  lemma UncommentStepLines(t: Text, l: nat)
    requires Valid(t) && 1 <= l <= |t.lines|
    ensures UncommentStep(t, l).lines == t.lines[l - 1 := Uncomment(t.lines[l - 1])]
  {
    var k := Find(t.lines[l - 1], '#');
    if k < |t.lines[l - 1]| {
      UncommentStepHash(t, l, k);
    } else {
      UncommentStepNoHash(t, l);
    }
  }

  lemma UncommentStepHash(t: Text, l: nat, k: nat)
    requires Valid(t) && 1 <= l <= |t.lines| && k == Find(t.lines[l - 1], '#') < |t.lines[l - 1]|
    ensures UncommentStep(t, l).lines == t.lines[l - 1 := Uncomment(t.lines[l - 1])]
  {
    assert UncommentStep(t, l) == Delete(t, Pos(l, k), Pos(l, k + 1));
    DeleteInLineText(t, l, k, k + 1);
  }

  lemma UncommentStepNoHash(t: Text, l: nat)
    requires Valid(t) && 1 <= l <= |t.lines| && Find(t.lines[l - 1], '#') == |t.lines[l - 1]|
    ensures UncommentStep(t, l).lines == t.lines[l - 1 := Uncomment(t.lines[l - 1])]
  {
    assert t.lines[l - 1 := t.lines[l - 1]] == t.lines;
  }

  /** The widget after the toggle loop has handled lines `first` to `l - 1`. */
  function ToggleUpTo(t: Text, first: nat, l: nat, uncomment: bool): (r: Text)
    requires Valid(t) && 1 <= first <= l <= |t.lines| + 1
    ensures Valid(r) && |r.lines| == |t.lines|
    decreases l
  {
    if l == first then t
    else
      var r := ToggleUpTo(t, first, l - 1, uncomment);
      IndentNoNewline();
      if uncomment then UncommentStep(r, l - 1) else PrependStep(r, l - 1, "#")
  }

  /**
   * The second loop of the comment toggle, over lines `first` to `last`:
   * when uncommenting, the first `#` of each line that has one is deleted;
   * otherwise a `#` is inserted at the start of each line.
   */
  method ToggleLines(t0: Text, first: nat, last: nat, uncomment: bool) returns (t: Text)
    requires Valid(t0) && 1 <= first <= last <= |t0.lines|
    ensures t == ToggleUpTo(t0, first, last + 1, uncomment)
  {
    t := t0;
    var line := first;
    while line <= last
      invariant first <= line <= last + 1
      invariant t == ToggleUpTo(t0, first, line, uncomment)
    {
      t := ToggleLineStep(t0, first, line, uncomment, t);
      line := line + 1;
    }
  }

  /** One pass of the toggle loop: line `line` is uncommented, or gets a `#` in front. */
  method ToggleLineStep(t0: Text, first: nat, line: nat, uncomment: bool, t: Text) returns (r: Text)
    requires Valid(t0) && 1 <= first <= line <= |t0.lines| && t == ToggleUpTo(t0, first, line, uncomment)
    ensures r == ToggleUpTo(t0, first, line + 1, uncomment)
  {
    IndentNoNewline();
    if uncomment {
      r := UncommentStep(t, line);
    } else {
      r := PrependStep(t, line, "#");
    }
  }

  /** The toggle loop toggles exactly the lines it has handled. */
  lemma {:induction false} ToggleUpToLines(t: Text, first: nat, l: nat, uncomment: bool)
    requires Valid(t) && 1 <= first <= l <= |t.lines| + 1
    ensures ToggleUpTo(t, first, l, uncomment).lines == ToggledLines(t.lines, first, l, uncomment)
    decreases l
  {
    if l == first {
      assert ToggledLines(t.lines, first, l, uncomment) == t.lines;
    } else {
      ToggleUpToLines(t, first, l - 1, uncomment);
      ToggledLinesStep(t.lines, first, l, uncomment);
      IndentNoNewline();
      var r := ToggleUpTo(t, first, l - 1, uncomment);
      if uncomment {
        UncommentStepLines(r, l - 1);
      } else {
        PrependStepLines(r, l - 1, "#");
      }
    }
  }

  /** The lines the comment toggle and the block indent act on: those the selection touches, or else the cursor's line. */
  function SelLines(t: Text): (r: (nat, nat))
    requires Valid(t)
    ensures 1 <= r.0 <= r.1 <= |t.lines|
  {
    if t.sel.Some? then (t.sel.value.first.line, t.sel.value.last.line) else (t.cursor.line, t.cursor.line)
  }

  /** The first loop of the comment toggle: it stops at the first line whose stripped text does not start with `#`. */
  method ScanAllCommented(L: seq<string>, first: nat, last: nat) returns (all: bool)
    requires 1 <= first <= last <= |L|
    ensures all == AllCommented(L, first, last)
  {
    all := true;
    var l := first;
    while l <= last
      invariant first <= l <= last + 1
      invariant all && AllCommented(L, first, l - 1)
    {
      if !StartsWith(LStrip(L[l - 1]), "#") {
        all := false;
        break;
      }
      l := l + 1;
    }
  }

  /** With the test of the first loop, the toggle loop over the whole range gives the toggled lines. */
  lemma ToggledLinesAll(L: seq<string>, first: nat, last: nat)
    requires 1 <= first <= last <= |L|
    ensures ToggledLines(L, first, last + 1, AllCommented(L, first, last)) == Toggled(L, first, last)
  {
    var u := AllCommented(L, first, last);
    var A, B := ToggledLines(L, first, last + 1, u), Toggled(L, first, last);
    assert |A| == |B|;
    forall k | 0 <= k < |A|
      ensures A[k] == B[k]
    {
      ToggledAt(L, first, last, k);
    }
  }

  //
  // Recolouring.
  //

  datatype Kind = Comment | Keyword | Builtin | Str

  /** The spans of one kind that the highlighter computes for a line. */
  function LineSpans(line: string, keywords: set<string>, builtins: set<string>, k: Kind): seq<Span>
  {
    var lt := TagsOfLine(line, keywords, builtins);
    match k
    case Comment => if lt.comment.Some? then [lt.comment.value] else []
    case Keyword => lt.keywords
    case Builtin => lt.builtins
    case Str => lt.strings
  }

  /** Column `col` is covered by one of `spans`. */
  predicate Covered(spans: seq<Span>, col: nat)
  {
    spans != [] && (spans[0].start <= col < spans[0].end || Covered(spans[1..], col))
  }

  /** `Covered` holds exactly when some span contains the column. */
  lemma {:induction false} CoveredSome(spans: seq<Span>, col: nat)
    ensures Covered(spans, col) <==> exists k | 0 <= k < |spans| :: spans[k].start <= col < spans[k].end
  {
    if spans != [] {
      CoveredSome(spans[1..], col);
      if exists k | 0 <= k < |spans| :: spans[k].start <= col < spans[k].end {
        var k :| 0 <= k < |spans| && spans[k].start <= col < spans[k].end;
        if k > 0 {
          assert spans[1..][k - 1] == spans[k];
        }
      }
      if Covered(spans[1..], col) {
        var k :| 0 <= k < |spans[1..]| && spans[1..][k].start <= col < spans[1..][k].end;
        assert spans[k + 1] == spans[1..][k];
      }
    }
  }

  /** Spans that end by `hi` cover only columns before `hi`. */
  lemma {:induction false} CoveredBelow(spans: seq<Span>, col: nat, hi: nat)
    requires forall k :: 0 <= k < |spans| ==> spans[k].end <= hi
    ensures Covered(spans, col) ==> col < hi
  {
    if spans != [] {
      assert forall k :: 0 <= k < |spans[1..]| ==> spans[1..][k] == spans[k + 1];
      CoveredBelow(spans[1..], col, hi);
    }
  }

  /** The flat positions covered by `spans`, shifted by `base`: one `tag_add` per span. */
  function SpanChars(base: nat, spans: seq<Span>): set<nat>
  {
    if spans == [] then {}
    else Between(base + spans[0].start, base + spans[0].end) + SpanChars(base, spans[1..])
  }

  /** A position is in `SpanChars` exactly when one of the spans, shifted by `base`, contains it. */
  lemma {:induction false} SpanCharsSpec(base: nat, spans: seq<Span>)
    ensures forall c :: c in SpanChars(base, spans) <==> c >= base && Covered(spans, c - base)
  {
    if spans != [] {
      SpanCharsSpec(base, spans[1..]);
    }
  }

  /** The spans of kind `k` of every line, in line order. */
  function SpansOf(L: seq<string>, keywords: set<string>, builtins: set<string>, k: Kind): (S: seq<seq<Span>>)
    ensures |S| == |L|
    decreases |L|
  {
    if L == [] then []
    else SpansOf(L[..|L| - 1], keywords, builtins, k) + [LineSpans(L[|L| - 1], keywords, builtins, k)]
  }

  /** Entry `j` of `SpansOf` holds line `j`'s spans. */
  lemma {:induction false} SpansOfAt(L: seq<string>, keywords: set<string>, builtins: set<string>, k: Kind, j: nat)
    requires j < |L|
    ensures SpansOf(L, keywords, builtins, k)[j] == LineSpans(L[j], keywords, builtins, k)
    decreases |L|
  {
    if j < |L| - 1 {
      SpansOfAt(L[..|L| - 1], keywords, builtins, k, j);
    }
  }

  /** Per-line spans that lie within their lines. */
  predicate SpansWithin(L: seq<string>, S: seq<seq<Span>>)
  {
    |S| == |L| && forall j :: 0 <= j < |L| ==> Ordered(S[j], 0, |L[j]|)
  }

  /** A line's spans of each kind lie within the line and come in order. */
  lemma LineSpansOrdered(line: string, keywords: set<string>, builtins: set<string>, k: Kind)
    ensures Ordered(LineSpans(line, keywords, builtins, k), 0, |line|)
  {
    TagsOfLineOrdered(line, keywords, builtins);
  }

  lemma SpansOfWithin(L: seq<string>, keywords: set<string>, builtins: set<string>, k: Kind)
    ensures SpansWithin(L, SpansOf(L, keywords, builtins, k))
  {
    var S := SpansOf(L, keywords, builtins, k);
    forall j | 0 <= j < |L| ensures Ordered(S[j], 0, |L[j]|) {
      SpansOfAt(L, keywords, builtins, k, j);
      LineSpansOrdered(L[j], keywords, builtins, k);
    }
  }

  /** The characters of the triple-quoted strings of the whole text (Tk's `get("1.0", "end")` ends with a newline). */
  function TripleChars(L: seq<string>): set<nat>
    requires |L| >= 1
  {
    SpanChars(0, TripleSpans(Join(L) + "\n", 0))
  }

  /**
   * The characters with one tag after the recolour loop has handled lines
   * `first` to `l - 1`, given each line's spans `S` for that tag; every
   * pass also adds `extra` (the triple-quoted strings, for the string tag).
   */
  function ColorifyChars(L: seq<string>, first: nat, l: nat, S: seq<seq<Span>>, extra: set<nat>): set<nat>
    requires 1 <= first <= l <= |L| + 1 && |S| == |L|
    decreases l
  {
    if l == first then {}
    else ColorifyChars(L, first, l - 1, S, extra) + SpanChars(Offset(L, Pos(l - 1, 0)), S[l - 2]) + extra
  }

  /** One more pass of the recolour loop adds the characters of line `i`'s spans and `extra`. */
  lemma ColorifyCharsStep(L: seq<string>, first: nat, i: nat, S: seq<seq<Span>>, extra: set<nat>)
    requires 1 <= first <= i <= |L| && |S| == |L|
    ensures ColorifyChars(L, first, i + 1, S, extra) == ColorifyChars(L, first, i, S, extra) + SpanChars(Offset(L, Pos(i, 0)), S[i - 1]) + extra
  {
  }

  /** The `tag_add` calls of one kind for line `i`: its spans, then the `extra` characters. */
  method TagLine(L: seq<string>, first: nat, i: nat, S: seq<seq<Span>>, extra: set<nat>, tag: set<nat>) returns (r: set<nat>)
    requires 1 <= first <= i <= |L| && |S| == |L| && tag == ColorifyChars(L, first, i, S, extra)
    ensures r == ColorifyChars(L, first, i + 1, S, extra)
  {
    ColorifyCharsStep(L, first, i, S, extra);
    r := tag + SpanChars(Offset(L, Pos(i, 0)), S[i - 1]) + extra;
  }

  /** All four tags after the recolour loop has handled lines `first` to `l - 1`. */
  function ColorifyTags(L: seq<string>, first: nat, l: nat, keywords: set<string>, builtins: set<string>): Tags
    requires 1 <= first <= l <= |L| + 1 && |L| >= 1
  {
    TagsOf(L, ColorifyChars(L, first, l, SpansOf(L, keywords, builtins, Comment), {}),
              ColorifyChars(L, first, l, SpansOf(L, keywords, builtins, Keyword), {}),
              ColorifyChars(L, first, l, SpansOf(L, keywords, builtins, Str), TripleChars(L)),
              ColorifyChars(L, first, l, SpansOf(L, keywords, builtins, Builtin), {}))
  }

  /** The four tags holding the given flat positions of the text. */
  function TagsOf(L: seq<string>, comment: set<nat>, keyword: set<nat>, str: set<nat>, builtin: set<nat>): Tags
    requires |L| >= 1
  {
    var n := |Join(L)| + 1;
    Tags(Holds(comment, n), Holds(keyword, n), Holds(str, n), Holds(builtin, n))
  }

  /** The loop of `colorify` over the visible lines `first` to `last`, starting from cleared tags. */
  method RecolourLines(L: seq<string>, first: nat, last: nat, keywords: set<string>, builtins: set<string>) returns (comment: set<nat>, keyword: set<nat>, str: set<nat>, builtin: set<nat>)
    requires 1 <= first <= last <= |L|
    ensures comment == ColorifyChars(L, first, last + 1, SpansOf(L, keywords, builtins, Comment), {})
    ensures keyword == ColorifyChars(L, first, last + 1, SpansOf(L, keywords, builtins, Keyword), {})
    ensures str == ColorifyChars(L, first, last + 1, SpansOf(L, keywords, builtins, Str), TripleChars(L))
    ensures builtin == ColorifyChars(L, first, last + 1, SpansOf(L, keywords, builtins, Builtin), {})
  {
    var triple := TripleChars(L);
    var sc, sk, ss, sb := SpansOf(L, keywords, builtins, Comment), SpansOf(L, keywords, builtins, Keyword),
                          SpansOf(L, keywords, builtins, Str), SpansOf(L, keywords, builtins, Builtin);
    comment, keyword, str, builtin := {}, {}, {}, {};
    var i := first;
    while i <= last
      invariant first <= i <= last + 1
      invariant comment == ColorifyChars(L, first, i, sc, {})
      invariant keyword == ColorifyChars(L, first, i, sk, {})
      invariant str == ColorifyChars(L, first, i, ss, triple)
      invariant builtin == ColorifyChars(L, first, i, sb, {})
    {
      comment := TagLine(L, first, i, sc, {}, comment);
      keyword := TagLine(L, first, i, sk, {}, keyword);
      str := TagLine(L, first, i, ss, triple, str);
      builtin := TagLine(L, first, i, sb, {}, builtin);
      i := i + 1;
    }
  }

  /** The widget's text after `colorify` has recoloured lines `first` to `last`: only the tags change. */
  method Recolour(t: Text, first: nat, last: nat, keywords: set<string>, builtins: set<string>) returns (r: Text)
    requires Valid(t) && 1 <= first <= last <= |t.lines|
    ensures Valid(r) && r == t.(tags := ColorifyTags(t.lines, first, last + 1, keywords, builtins))
  {
    var comment, keyword, str, builtin := RecolourLines(t.lines, first, last, keywords, builtins);
    r := t.(tags := TagsOf(t.lines, comment, keyword, str, builtin));
  }

  /** A character of line `i` lies in line `j`'s window of flat positions only when `i` and `j` are the same line. */
  lemma LineWindow(L: seq<string>, i: nat, col: nat, j: nat)
    requires 1 <= i <= |L| && col < |L[i - 1]| && 1 <= j <= |L|
    ensures var c := Offset(L, Pos(i, col)); var base := Offset(L, Pos(j, 0));
      base <= c < base + |L[j - 1]| <==> i == j
  {
    if j < i {
      OffsetMonotone(L, Pos(j, |L[j - 1]|), Pos(i, col));
    } else if i < j {
      OffsetMonotone(L, Pos(i, col), Pos(j, 0));
    }
  }

  lemma SpanCharsSameLine(L: seq<string>, i: nat, col: nat, spans: seq<Span>)
    requires 1 <= i <= |L|
    ensures Offset(L, Pos(i, col)) in SpanChars(Offset(L, Pos(i, 0)), spans) <==> Covered(spans, col)
  {
    OffsetInLine(L, i, col);
    SpanCharsSpec(Offset(L, Pos(i, 0)), spans);
  }

  lemma SpanCharsOtherLine(L: seq<string>, i: nat, col: nat, j: nat, spans: seq<Span>)
    requires 1 <= i <= |L| && col < |L[i - 1]| && 1 <= j <= |L| && i != j && Ordered(spans, 0, |L[j - 1]|)
    ensures Offset(L, Pos(i, col)) !in SpanChars(Offset(L, Pos(j, 0)), spans)
  {
    var c := Offset(L, Pos(i, col));
    var base := Offset(L, Pos(j, 0));
    LineWindow(L, i, col, j);
    SpanCharsSpec(base, spans);
    if c >= base {
      CoveredBelow(spans, c - base, |L[j - 1]|);
    }
  }

  /** Spans that lie within line `j`, placed at that line, cover a character of line `i` exactly when `i` is `j` and they cover its column. */
  lemma SpanCharsAt(L: seq<string>, i: nat, col: nat, j: nat, spans: seq<Span>)
    requires 1 <= i <= |L| && col < |L[i - 1]| && 1 <= j <= |L| && Ordered(spans, 0, |L[j - 1]|)
    ensures Offset(L, Pos(i, col)) in SpanChars(Offset(L, Pos(j, 0)), spans) <==> i == j && Covered(spans, col)
  {
    if i == j {
      SpanCharsSameLine(L, i, col, spans);
    } else {
      SpanCharsOtherLine(L, i, col, j, spans);
    }
  }

  /**
   * After the recolour loop over lines `first` to `l - 1`, a character of
   * line `i` carries the tag exactly when its line was handled and that
   * line's spans cover it, or some line was handled and it is in `extra`.
   */
  lemma {:induction false} ColorifyCharsAt(L: seq<string>, first: nat, l: nat, S: seq<seq<Span>>, extra: set<nat>, i: nat, col: nat)
    requires 1 <= first <= l <= |L| + 1 && SpansWithin(L, S) && 1 <= i <= |L| && col < |L[i - 1]|
    ensures Offset(L, Pos(i, col)) in ColorifyChars(L, first, l, S, extra) <==>
      (first <= i < l && Covered(S[i - 1], col)) || (first < l && Offset(L, Pos(i, col)) in extra)
    decreases l
  {
    if l > first {
      ColorifyCharsAt(L, first, l - 1, S, extra, i, col);
      SpanCharsAt(L, i, col, l - 1, S[l - 2]);
    }
  }

  /**
   * After the recolour of lines `first` to `last` (the tag of kind `k` is
   * the `k` component of `ColorifyTags`), a character of line `i` carries
   * that tag exactly when `i` is among those lines and the
   * highlighter's spans of that kind for its line cover it; the string tag
   * also covers the triple-quoted strings of the whole text.
   */
  lemma ColorifyTagsAt(L: seq<string>, first: nat, last: nat, keywords: set<string>, builtins: set<string>, k: Kind, i: nat, col: nat)
    requires 1 <= first <= last <= |L| && 1 <= i <= |L| && col < |L[i - 1]|
    ensures Offset(L, Pos(i, col)) in ColorifyChars(L, first, last + 1, SpansOf(L, keywords, builtins, k), if k == Str then TripleChars(L) else {}) <==>
      (first <= i <= last && Covered(LineSpans(L[i - 1], keywords, builtins, k), col)) ||
      (k == Str && Offset(L, Pos(i, col)) in TripleChars(L))
  {
    var S := SpansOf(L, keywords, builtins, k);
    var E := if k == Str then TripleChars(L) else {};
    var c := Offset(L, Pos(i, col));
    assert c in ColorifyChars(L, first, last + 1, S, E) <==> (first <= i <= last && Covered(S[i - 1], col)) || c in E by {
      SpansOfWithin(L, keywords, builtins, k);
      ColorifyCharsAt(L, first, last + 1, S, E, i, col);
    }
    SpansOfAt(L, keywords, builtins, k, i - 1);
  }
}
