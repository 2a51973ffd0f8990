/**
 * `PatchedText`, the editor's text widget: the key handlers that edit the
 * buffer, move the cursor and the selection, complete names and recolour
 * the visible lines.
 *
 * The widget's content, cursor, selection and tags are the `text` field
 * (a `TkText.Text`); the handlers change it only through the Tk operations
 * of `TkText`.  The other fields are those the handlers keep across calls:
 * the raw selection anchor, the id of the pending recolour job, and the
 * completion menu.  Tk's `after` timer is kept only as the set of jobs it
 * has pending and the next id it hands out.  Every `insert` of the widget
 * re-arms the recolour job, as the overridden `insert` does.
 */
module EditorWidget {
  import opened Wrappers
  import opened Chars
  import opened Buffer
  import opened Words
  import opened Editing
  import opened TkText
  import opened EditorOps

  class PatchedText {
    /** The widget's lines, `insert` mark, `sel` tag and highlight tags. */
    var text: Text
    /** `sel_anchor`: the index a selecting word jump started from, kept as written (it is not a Tk mark). */
    var selAnchor: Option<Pos>
    /** `_colorify_after_id`: the pending recolour job, if any. */
    var afterId: Option<nat>
    /** The recolour jobs Tk's event loop has pending. */
    var timers: set<nat>
    /** The id Tk's `after` hands out next. */
    var nextTimer: nat
    /** `active_menu`: the completion menu being shown, as its entries. */
    var activeMenu: Option<seq<string>>
    /** The keyword and builtin names the highlighter looks for. */
    const keywords: set<string>
    const builtins: set<string>

    ghost predicate Valid()
      reads this
    {
      TkText.Valid(text) &&
      (selAnchor.Some? ==> selAnchor.value.line >= 1) &&
      timers == (if afterId.Some? then {afterId.value} else {}) &&
      (afterId.Some? ==> afterId.value < nextTimer)
    }

    /** A new widget: one empty line, the cursor at `1.0`, no selection, anchor, tags, pending job or menu. */
    constructor (keywords: set<string>, builtins: set<string>)
      ensures Valid()
      ensures text == Text([""], Pos(1, 0), None, NoTags)
      ensures selAnchor.None? && afterId.None? && timers == {} && activeMenu.None?
      ensures this.keywords == keywords && this.builtins == builtins
    {
      text := Text([""], Pos(1, 0), None, NoTags);
      selAnchor := None;
      afterId := None;
      timers := {};
      nextTimer := 0;
      activeMenu := None;
      this.keywords := keywords;
      this.builtins := builtins;
    }

    //
    // The recolour job.
    //

    /** `after_colorify`: the pending job, if any, is cancelled and a new one is armed. */
    method AfterColorify()
      requires Valid()
      modifies this`afterId, this`timers, this`nextTimer
      ensures Valid()
      ensures afterId == Some(old(nextTimer)) && timers == {old(nextTimer)} && nextTimer == old(nextTimer) + 1
    {
      if afterId.Some? {
        timers := timers - {afterId.value};
      }
      afterId := Some(nextTimer);
      timers := timers + {nextTimer};
      nextTimer := nextTimer + 1;
    }

    /** The overridden `insert`: Tk's insertion, then `after_colorify`. */
    method Insert(p: Pos, s: string)
      requires Valid() && ValidPos(text.lines, p)
      modifies this`text, this`afterId, this`timers, this`nextTimer
      ensures Valid()
      ensures text == TkText.Insert(old(text), p, s)
      ensures afterId == Some(old(nextTimer)) && nextTimer == old(nextTimer) + 1
    {
      text := TkText.Insert(text, p, s);
      AfterColorify();
    }

    /**
     * `colorify`, which the pending job runs when it fires, over the visible
     * lines `first` to `last`: the pending job is cancelled and forgotten,
     * the four tags are cleared and each visible line gets its spans; the
     * string tag also gets the triple-quoted strings.
     */
    method Colorify(first: nat, last: nat)
      requires Valid() && 1 <= first <= last <= |text.lines|
      modifies this`text, this`afterId, this`timers
      ensures Valid()
      ensures text == old(text).(tags := ColorifyTags(old(text).lines, first, last + 1, keywords, builtins))
      ensures afterId.None? && timers == {}
    {
      if afterId.Some? {
        timers := timers - {afterId.value};
        afterId := None;
      }
      text := Recolour(text, first, last, keywords, builtins);
    }

    //
    // Auto-closing pairs and the smart backspace.
    //

    /**
     * `autoclose_pairs` for the typed character `c`; `handled` is its
     * `"break"`.  Unhandled keys are left to Tk's own insertion.
     */
    method AutoclosePairs(c: char) returns (handled: bool)
      requires Valid()
      modifies this`text, this`afterId, this`timers, this`nextTimer
      ensures Valid()
      ensures var t := old(text); var p := t.cursor;
        if IsCloser(c) && CharAt(t.lines, p) == c then
          handled && text == MarkSet(t, Advance(t.lines, p, 1)) && afterId == old(afterId) && nextTimer == old(nextTimer)
        else if CloserOf(c).Some? then
          handled && text == (if t.sel.Some? then Wrapped(t, c) else Paired(t, c)) &&
          afterId == Some(old(nextTimer)) && nextTimer == old(nextTimer) + 1
        else
          !handled && text == t && afterId == old(afterId) && nextTimer == old(nextTimer)
    {
      var p := text.cursor;
      var nextChar := CharAt(text.lines, p);
      if IsCloser(c) && nextChar == c {
        text := MarkSet(text, Advance(text.lines, p, 1));
        return true;
      }
      var closer := CloserOf(c);
      if closer.Some? {
        if text.sel.Some? {
          WrapSelection(c);
        } else {
          InsertPair(c);
        }
        return true;
      }
      return false;
    }

    /** With a selection: the selected text is deleted, put back between `c` and its closer, and the cursor is moved past it. */
    method WrapSelection(c: char)
      requires Valid() && CloserOf(c).Some? && text.sel.Some?
      modifies this`text, this`afterId, this`timers, this`nextTimer
      ensures Valid()
      ensures text == Wrapped(old(text), c)
      ensures afterId == Some(old(nextTimer)) && nextTimer == old(nextTimer) + 1
    {
      var start, end := text.sel.value.first, text.sel.value.last;
      var selected := GetText(text.lines, start, end);
      DeleteKeepsStart(text.lines, start, end);
      text := Delete(text, start, end);
      var wrapped := [c] + selected + [CloserOf(c).value];
      InsertKeepsStart(text.lines, start, wrapped);
      Insert(start, wrapped);
      text := MarkSet(text, Advance(text.lines, start, |[c] + selected| + 1));
    }

    /** Without a selection: `c` and its closer go in at the cursor, which is moved between them. */
    method InsertPair(c: char)
      requires Valid() && CloserOf(c).Some?
      modifies this`text, this`afterId, this`timers, this`nextTimer
      ensures Valid()
      ensures text == Paired(old(text), c)
      ensures afterId == Some(old(nextTimer)) && nextTimer == old(nextTimer) + 1
    {
      var p := text.cursor;
      var pair := [c, CloserOf(c).value];
      assert NoNewline(pair);
      InsertInLine(text, p, pair);
      Insert(p, pair);
      AdvanceInLine(text.lines, p, 1);
      text := MarkSet(text, Advance(text.lines, p, 1));
    }

    /**
     * `handle_backspace`; `handled` is its `"break"`.  With a selection, or
     * when neither special case applies, Tk's own backspace runs instead.
     */
    method HandleBackspace() returns (handled: bool)
      requires Valid()
      modifies this`text
      ensures Valid()
      ensures var t := old(text); var p := t.cursor;
        if t.sel.Some? then !handled && text == t
        else if PairAround(t.lines, p) then handled && text == Delete(t, Retreat(t.lines, p, 1), Advance(t.lines, p, 1))
        else if EndsWith(t.lines[p.line - 1][..p.col], Indent) then handled && text == Delete(t, Retreat(t.lines, p, 4), p)
        else !handled && text == t
    {
      if text.sel.Some? {
        return false;
      }
      var p := text.cursor;
      if PairAround(text.lines, p) {
        text := Delete(text, Retreat(text.lines, p, 1), Advance(text.lines, p, 1));
        return true;
      }
      var beforeCursor := GetText(text.lines, Pos(p.line, 0), p);
      GetTextInLine(text.lines, p.line, 0, p.col);
      if EndsWith(beforeCursor, Indent) {
        text := Delete(text, Retreat(text.lines, p, 4), p);
        return true;
      }
      return false;
    }

    //
    // Word jumps and delete-previous-word.
    //

    /** `_jump_word`: moves the cursor to the jump target; with `select` the selection spans from the anchor to it, otherwise selection and anchor are cleared. */
    method JumpWord(right: bool, select: bool)
      requires Valid()
      modifies this`text, this`selAnchor
      ensures Valid()
      ensures var t := old(text); var q := JumpTarget(t.lines, t.cursor, right);
        text.lines == t.lines && text.tags == t.tags && text.cursor == q &&
        if select then
          selAnchor == (if old(selAnchor).None? then Some(t.cursor) else old(selAnchor)) &&
          text.sel == SelBetween(t.lines, Clamp(t.lines, selAnchor.value), q)
        else
          text.sel.None? && selAnchor.None?
    {
      var t := text;
      var cur := t.cursor;
      var L := t.lines;
      var newIndex := JumpIndex(L, cur, right);
      if select {
        t := MarkSet(t, newIndex);
        if selAnchor.None? {
          selAnchor := Some(cur);
        }
        var start, end := Clamp(L, selAnchor.value), newIndex;
        if PosLt(end, start) {
          start, end := end, start;
        }
        text := Select(t, start, end);
      } else {
        t := t.(sel := None);
        text := MarkSet(t, newIndex);
        selAnchor := None;
      }
    }

    /** `ctrl_jump_right` / `ctrl_jump_left`: a plain jump. */
    method CtrlJump(right: bool)
      requires Valid()
      modifies this`text, this`selAnchor
      ensures Valid()
      ensures text == old(text).(cursor := JumpTarget(old(text).lines, old(text).cursor, right), sel := None)
      ensures selAnchor.None?
    {
      JumpWord(right, false);
    }

    /** `shift_ctrl_jump_right` / `shift_ctrl_jump_left`: the anchor is captured only when there is none, then a selecting jump. */
    method ShiftCtrlJump(right: bool)
      requires Valid()
      modifies this`text, this`selAnchor
      ensures Valid()
      ensures var t := old(text); var q := JumpTarget(t.lines, t.cursor, right);
        selAnchor == (if old(selAnchor).None? then Some(t.cursor) else old(selAnchor)) &&
        text == t.(cursor := q, sel := SelBetween(t.lines, Clamp(t.lines, selAnchor.value), q))
    {
      if selAnchor.None? {
        selAnchor := Some(text.cursor);
      }
      JumpWord(right, true);
    }

    /** `delete_last_word`: every path returns `None`, so the key is never reported as handled. */
    method DeleteLastWord() returns (handled: bool)
      requires Valid()
      modifies this`text
      ensures Valid()
      ensures text == DeletedWord(old(text))
      ensures !handled
    {
      text := DeleteWordBefore(text);
      handled := false;
    }

    //
    // Completion and block indent.
    //

    /** `insert_completion`: the prefix before the cursor is replaced by `name`. */
    method InsertCompletion(name: string)
      requires Valid()
      modifies this`text, this`afterId, this`timers, this`nextTimer
      ensures Valid()
      ensures text == Completed(old(text), name)
      ensures afterId == Some(old(nextTimer)) && nextTimer == old(nextTimer) + 1
    {
      var p := text.cursor;
      var prefix := CursorPrefix(text.lines, p);
      if |prefix| > 0 {
        text := Delete(text, Retreat(text.lines, p, |prefix|), p);
      }
      Insert(text.cursor, name);
    }

    /** The menu entry `k` is chosen: its name is completed. */
    method ChooseCompletion(k: nat)
      requires Valid() && activeMenu.Some? && k < |activeMenu.value|
      modifies this`text, this`afterId, this`timers, this`nextTimer
      ensures Valid()
      ensures text == Completed(old(text), old(activeMenu).value[k])
      ensures afterId == Some(old(nextTimer)) && nextTimer == old(nextTimer) + 1
    {
      InsertCompletion(activeMenu.value[k]);
    }

    /** `hide_autocomplete_menu`. */
    method HideAutocompleteMenu()
      modifies this`activeMenu
      ensures activeMenu.None?
    {
      activeMenu := None;
    }

    /** What completing from the sorted candidate list `cs` does: nothing, one completion, or a menu. */
    ghost predicate CompletesWith(t: Text, cs: seq<string>)
      requires TkText.Valid(t)
      reads this
    {
      if cs == [] then text == t && activeMenu.None?
      else if |cs| == 1 then text == Completed(t, cs[0]) && activeMenu.None?
      else text == t && activeMenu == Some(cs)
    }

    /**
     * The block indent of `show_autocomplete`: four spaces at the start of
     * every line the selection touches.  Each of those `insert`s re-arms the
     * recolour job; the model re-arms it once, after the last line.
     */
    method IndentSelection()
      requires Valid() && text.sel.Some?
      modifies this`text, this`afterId, this`timers, this`nextTimer
      ensures Valid()
      ensures text == IndentUpTo(old(text), SelLines(old(text)).0, SelLines(old(text)).1 + 1)
      ensures afterId == Some(old(nextTimer)) && nextTimer == old(nextTimer) + 1
    {
      var first, last := text.sel.value.first.line, text.sel.value.last.line;
      text := IndentLines(text, first, last);
      AfterColorify();
    }

    /**
     * `show_autocomplete` (the completion key).  `strComplete` is the
     * literal candidate list a caller may pass; `source` is what the
     * completion library returns for the buffer and the cursor, `None`
     * when it is missing or fails.
     */
    method ShowAutocomplete(strComplete: seq<string>, source: Option<seq<string>>)
      requires Valid()
      modifies this`text, this`afterId, this`timers, this`nextTimer, this`activeMenu
      ensures Valid()
      ensures var t := old(text); var p := t.cursor;
        if |strComplete| > 0 then CompletesWith(t, SortByLower(strComplete))
        else if t.sel.Some? then
          text == IndentUpTo(t, SelLines(t).0, SelLines(t).1 + 1) && activeMenu.None?
        else if PrefixAt(t.lines, p) == [] then text == TkText.Insert(t, p, Indent) && activeMenu.None?
        else if source.None? then text == t && activeMenu.None?
        else CompletesWith(t, SortByLower(Candidates(source.value, PrefixAt(t.lines, p))))
    {
      activeMenu := None;
      var completions: seq<string>;
      if |strComplete| > 0 {
        completions := strComplete;
      } else {
        if text.sel.Some? {
          IndentSelection();
          return;
        }
        var p := text.cursor;
        var prefix := CursorPrefix(text.lines, p);
        StripPrefixEmpty(text.lines, p);
        if LStrip(prefix) == [] {
          Insert(p, Indent);
          return;
        }
        if source.None? {
          return;
        }
        completions := Candidates(source.value, prefix);
      }
      OfferCompletions(completions);
    }

    /** The end of `show_autocomplete`: the candidates are sorted, then nothing happens, the only one is inserted, or the menu opens. */
    method OfferCompletions(completions: seq<string>)
      requires Valid() && activeMenu.None?
      modifies this`text, this`afterId, this`timers, this`nextTimer, this`activeMenu
      ensures Valid()
      ensures CompletesWith(old(text), SortByLower(completions))
    {
      if completions == [] {
        return;
      }
      var sorted := SortByLower(completions);
      if |sorted| == 1 {
        InsertCompletion(sorted[0]);
        return;
      }
      activeMenu := Some(sorted);
    }

    //
    // Control keys: select all and the comment toggle.
    //

    /**
     * The comment toggle of `ctrl_plus`: the selected lines (or the cursor's
     * line) lose their first `#` when all are comments, and gain one
     * otherwise.  Commenting goes through the widget's `insert`, which
     * re-arms the recolour job; the model re-arms it once, after the last line.
     */
    method ToggleComments()
      requires Valid()
      modifies this`text, this`afterId, this`timers, this`nextTimer
      ensures Valid()
      ensures var t := old(text);
        text == ToggleUpTo(t, SelLines(t).0, SelLines(t).1 + 1, AllCommented(t.lines, SelLines(t).0, SelLines(t).1))
      ensures var t := old(text); AllCommented(t.lines, SelLines(t).0, SelLines(t).1) ==>
        afterId == old(afterId) && timers == old(timers) && nextTimer == old(nextTimer)
      ensures var t := old(text); !AllCommented(t.lines, SelLines(t).0, SelLines(t).1) ==>
        afterId == Some(old(nextTimer)) && timers == {old(nextTimer)} && nextTimer == old(nextTimer) + 1
    {
      var first, last := SelLines(text).0, SelLines(text).1;
      var allCommented := ScanAllCommented(text.lines, first, last);
      text := ToggleLines(text, first, last, allCommented);
      if !allCommented {
        AfterColorify();
      }
    }

    /**
     * `ctrl_plus` for a Control key press with modifier mask `state` and
     * key code `keycode`: the recolour job is re-armed, then Ctrl+A selects
     * everything and Ctrl+/ or Ctrl+3 toggles line comments on the
     * selected lines (or the cursor's line).
     */
    method CtrlPlus(state: nat, keycode: int) returns (handled: bool)
      requires Valid()
      modifies this`text, this`afterId, this`timers, this`nextTimer
      ensures Valid()
      ensures var t := old(text); var ctrl := (state / 4) % 2 == 1 && state % 2 == 0;
        if ctrl && keycode == 65 then
          handled && text == MarkSet(Select(t, Pos(1, 0), EndPos(t.lines)), EndPos(t.lines))
        else if ctrl && (keycode == 191 || keycode == 51) then
          handled && text == ToggleUpTo(t, SelLines(t).0, SelLines(t).1 + 1, AllCommented(t.lines, SelLines(t).0, SelLines(t).1))
        else
          !handled && text == t
      ensures afterId.Some? && nextTimer > old(nextTimer)
    {
      AfterColorify();
      if (state / 4) % 2 == 1 && state % 2 == 0 {
        if keycode == 65 {
          text := Select(text, Pos(1, 0), EndPos(text.lines));
          text := MarkSet(text, EndPos(text.lines));
          return true;
        }
        if keycode == 191 || keycode == 51 {
          ToggleComments();
          return true;
        }
      }
      return false;
    }
  }
}
