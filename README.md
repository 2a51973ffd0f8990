# A verified model of a Tk Python code editor

This project models the core of a small Python code editor built on Tk and
proves properties of that model. The core has four parts:

- **The patched text widget** (`PatchedText`). Its key handlers auto-close
  brackets and quotes, give a smart backspace, jump over words
  (optionally selecting), delete the previous word, complete names,
  indent a block, toggle line comments and select everything. A debounced
  highlighter recolours the visible lines with four tags (comment,
  keyword, string, builtin).
- **The undefined-name checker.** It is an AST visitor that gathers bound
  names and reports names loaded before they are bound.
- **The run and check pipeline** of the application:
  - before a run it replaces tabs and may put an `input` shim in front;
  - it logs the output, truncated to 2000 characters;
  - after a failed run it marks the error line;
  - it tracks the process and handles the stop button;
  - it places the markers of the syntax and name check.
- **Tab bookkeeping** of the editor window: the table of saved code,
  new tab ids and labels, and the character-by-character restore of a
  tab's code.

The Dafny modules follow that structure:

| module | file | what it holds |
|---|---|---|
| `Wrappers` | `wrappers.dfy` | `Option` |
| `Chars` | `chars.dfy` | Python's `isspace`, `isalnum`, `lower`, `find` and `lstrip` on characters and strings |
| `Buffer` | `buffer.dfy` | The buffer as lines, Tk indices `line.col`, and the flat offsets behind `+Nc`/`-Nc`. It also holds general insertion and deletion, and how marks move |
| `TkText` | `tk_text.dfy` | The widget state: lines, the `insert` mark, the `sel` tag and the highlight tags. It also holds Tk's `insert`, `delete`, `mark_set` and `tag_add("sel")` |
| `Words` | `words.dfy` | Runs of blanks and word characters. The scanning loops of the handlers are proved against them |
| `Editing` | `editing.dfy` | Bracket pairs, the comment toggle on lines, and filtering and stable case-insensitive sorting of completions |
| `Highlight` | `highlight.dfy` | The spans of one line for each tag, and the triple-quoted strings of the whole text |
| `EditorOps` | `editor_ops.dfy` | The handlers' effect as functions of the widget state, and the handlers' loops as methods proved against them |
| `EditorWidget` | `patched_text.dfy` | `class PatchedText`: the handlers as methods that update the widget and the recolour timer |
| `NameCheck` | `name_checker.dfy` | The visitor as the function `Walk`, and `class NameChecker`, whose `Visit` is proved to compute it |
| `RunPipeline` | `run_pipeline.dfy` | Run preparation, truncation, error-line choice, `check_errors`, and `class App` with the run state |
| `TabsStore` | `tabs_store.dfy` | `class CodeStore` (the `codes` table), tab ids and labels, and `class RestoreText` |

Tk index arithmetic is modelled exactly:
- `p+Nc` and `p-Nc` move by flat offsets in the `'\n'`-joined text;
- they clamp at `1.0` and at `end-1c`, the last position the model has (Tk's `end`, after the final newline, is not a position of the model);
- the `insert` mark has right gravity;
- the `sel` tag's two ends move the way Tk moves a tag range's start and end.

## Model

| member | source | states |
|---|---|---|
| `Chars.ToLowerChar` | app/text_widget_monkey_p.py:282 | An upper-case ASCII letter becomes the lower-case letter 32 code points above it; every other character is unchanged |
| `Chars.ToLower` | app/text_widget_monkey_p.py:282 | `x.lower()`: same length, lowered character by character |
| `Chars.LeadingSpaces` | app/text_widget_monkey_p.py:475-479 | `len(line) - len(line.lstrip())`: a blank prefix followed by a non-blank character or the end |
| `Chars.Find` | app/text_widget_monkey_p.py:484 | `line.find("#")`: the first occurrence (no earlier one), or the length when there is none |
| `Buffer.Advance` | app/text_widget_monkey_p.py:201 | `p+Nc`: a valid index whose offset is `p`'s plus `n`, clamped at the end of the text |
| `Buffer.Retreat` | app/text_widget_monkey_p.py:339 | `p-Nc`: a valid index whose offset is `p`'s minus `n`, clamped at `1.0` |
| `Buffer.Clamp` | app/text_widget_monkey_p.py:415-421 | A stored raw index, normalised as Tk's `mark_set` does, is always a valid index: a valid index is kept, a line past the end gives the end of the text, a column past the line end gives that line's end |
| `Buffer.Split` | app/editor_app.py:174-175 | Inserted text split at newlines: at least one line, and no line holds a newline |
| `Buffer.JoinSplit` | app/editor_app.py:174-175 | Joining the split lines gives the flat text back |
| `Buffer.MarkAfterInsertSpec` | app/text_widget_monkey_p.py:45-46 | After an insertion a mark stays valid; its offset shifts by the inserted length by its gravity |
| `Buffer.MarkAfterDeleteSpec` | app/text_widget_monkey_p.py:341 | After a deletion a mark stays valid and moves back over the deleted characters |
| `Buffer.OffsetOfPosAt` | app/text_widget_monkey_p.py:512-513 | `1.0 + N chars` yields a valid index at flat offset `N` |
| `Buffer.PosAtOfOffset` | app/text_widget_monkey_p.py:512-513 | Indices and flat offsets convert both ways without loss |
| `Buffer.AdvanceAtLineEnd` | app/text_widget_monkey_p.py:390 | `+1c` at a line end goes to the next line's start; at the end of the text it stays |
| `Buffer.RetreatAtLineStart` | app/text_widget_monkey_p.py:403 | `-1c` at a line start goes to the previous line's end; at `1.0` it stays |
| `Buffer.CharAtFlat` | app/text_widget_monkey_p.py:198 | `text.get(index)` reads the flat text, with Tk's final newline, at the index's offset |
| `Buffer.DeleteInserted` | app/text_widget_monkey_p.py:212 | Deleting text just inserted on one line gives the lines back |
| `TkText.HoldsSpec` | app/text_widget_monkey_p.py:456-459 | A tag built from a set of positions is carried exactly by the members of the set inside the text |
| `TkText.TagAfterInsertSpec` | app/text_widget_monkey_p.py:45-46 | On insertion, tagged characters keep their tag and move. New characters are tagged iff both neighbours are |
| `TkText.TagAfterDeleteSpec` | app/text_widget_monkey_p.py:341 | On deletion, earlier characters keep their tag and later ones bring theirs back with them |
| `TkText.SelAfterInsertValid` | app/text_widget_monkey_p.py:45-46 | Insertion never empties or inverts the selection |
| `TkText.SelAfterDeleteValid` | app/text_widget_monkey_p.py:207 | After a deletion the selection is still in order, or it is gone |
| `TkText.Insert` | app/text_widget_monkey_p.py:45-46 | `insert` keeps the widget valid and puts the text in the lines at the index |
| `TkText.Delete` | app/text_widget_monkey_p.py:341 | `delete(a, b)` does nothing unless `a < b`, and otherwise removes exactly that range |
| `TkText.InsertFlat` | app/text_widget_monkey_p.py:45-46 | In flat terms, `insert` splices the text at the offset and moves the cursor as a right-gravity mark |
| `TkText.DeleteFlat` | app/text_widget_monkey_p.py:341 | In flat terms, `delete` cuts out the range and moves the cursor back over it |
| `TkText.MarkSet` | app/text_widget_monkey_p.py:201 | `mark_set("insert", p)` moves the cursor to `p` and changes nothing else |
| `TkText.Select` | app/text_widget_monkey_p.py:420-421 | Removing then adding `sel` gives exactly `[a, b)`, or no selection when that is empty |
| `TkText.InsertInLine` | app/text_widget_monkey_p.py:212-213 | Inserting text without a newline changes only that line and shifts the cursor along it |
| `TkText.DeleteInLineText` | app/text_widget_monkey_p.py:350 | Deleting columns `[a, b)` of one line changes only that line |
| `TkText.DeleteAfterInsert` | app/text_widget_monkey_p.py:212 | Deleting what was just inserted gives the lines back |
| `Words.SpaceRunEnd` | app/text_widget_monkey_p.py:385-386 | The end of the blanks run from `i`: all blank before it, and the run cannot be extended |
| `Words.WordRunEnd` | app/text_widget_monkey_p.py:387-388 | The end of the word-character run from `i`, maximal |
| `Words.SpaceRunStart` | app/text_widget_monkey_p.py:398-399 | The start of the blanks run ending at `i`, maximal |
| `Words.WordRunStart` | app/text_widget_monkey_p.py:437-438 | The start of the word-character run ending at `i`, maximal |
| `Words.RightStop` | app/text_widget_monkey_p.py:384-388 | The rightward stop: a maximal blank run, then a maximal word run |
| `Words.LeftStop` | app/text_widget_monkey_p.py:397-401 | The leftward stop: the mirror image of `RightStop` |
| `Words.WordSuffixMaximal` | app/text_widget_monkey_p.py:257-261 | The completion prefix ends the line, holds only word characters and cannot be extended |
| `Words.WordSuffixLongest` | app/text_widget_monkey_p.py:257-261 | Every word-character suffix is at most as long as the prefix found |
| `Words.ScanRight` | app/text_widget_monkey_p.py:384-388 | The two `while` loops of the rightward jump stop at `RightStop` |
| `Words.ScanLeft` | app/text_widget_monkey_p.py:397-401 | The two `while` loops of the leftward jump stop at `LeftStop` |
| `Words.FindWordStart` | app/text_widget_monkey_p.py:435-438 | The `word_start` loop stops at the start of the maximal word run before the cursor |
| `Words.ExtractPrefix` | app/text_widget_monkey_p.py:311-315 | The reversed loop that builds `prefix` yields the maximal word-character suffix |
| `Editing.CloserOf` | app/text_widget_monkey_p.py:185 | `pairs`: defined exactly on `( [ { " '`, and the quotes close themselves |
| `Editing.CloserOfIsCloser` | app/text_widget_monkey_p.py:185-187 | A character is in `close_chars` exactly when it is some opener's closer |
| `Editing.Uncomment` | app/text_widget_monkey_p.py:169-171 | Removes one character when the line has a `#`, and leaves a line without one unchanged |
| `Editing.Toggled` | app/text_widget_monkey_p.py:157-174 | The comment toggle keeps the number of lines |
| `Editing.ToggledAt` | app/text_widget_monkey_p.py:157-174 | Lines in the range are toggled one way for all; other lines stay the same |
| `Editing.CommentedHash` | app/text_widget_monkey_p.py:161 | A line whose stripped text starts with `#` has its first `#` right after the indentation |
| `Editing.UncommentComment` | app/text_widget_monkey_p.py:169-174 | Removing the first `#` of `"#" + line` gives `line` |
| `Editing.CommentIsCommented` | app/text_widget_monkey_p.py:161-174 | A line given a `#` counts as commented |
| `Editing.ToggleTwice` | app/text_widget_monkey_p.py:157-174 | Toggling a range that is not all commented, twice, gives the lines back |
| `Editing.UncommentRemovesMarker` | app/text_widget_monkey_p.py:167-171 | Uncommenting a wholly commented range removes the `#` after each line's indentation |
| `Editing.Candidates` | app/text_widget_monkey_p.py:274-277 | Exactly the names that do not start with `__` and do start with the prefix are kept |
| `Editing.InsertByKeyStable` | app/text_widget_monkey_p.py:282 | The insertion step of the sort appends to its key's group and leaves other groups alone |
| `Editing.SortByLowerCorrect` | app/text_widget_monkey_p.py:282 | `sort(key=lambda x: x.lower())`: sorted by lower-cased key, a permutation, and stable within each key |
| `Editing.CandidatesSingle` | app/text_widget_monkey_p.py:274-277 | One name is kept exactly when it does not start with `__` and starts with the prefix |
| `Editing.CandidatesAppend` | app/text_widget_monkey_p.py:274-277 | The filter keeps order: the candidates of `a + b` are those of `a` followed by those of `b` |
| `Editing.CandidatesExample` | app/text_widget_monkey_p.py:274-277 | Prefix `pri` over `printf, __print__, print, open` keeps `printf, print` in that order |
| `Editing.SortExample` | app/text_widget_monkey_p.py:282 | `print` sorts before `printf` |
| `Highlight.CommentSpan` | app/text_widget_monkey_p.py:475-481 | A comment tag exists iff the first non-blank character is `#`, and it runs from there to the line end |
| `Highlight.CommentSpanPrecededByBlanks` | app/text_widget_monkey_p.py:478-481 | Everything before the comment tag is blank, and the tag starts at a `#` |
| `Highlight.WordSpansOrdered` | app/text_widget_monkey_p.py:487-499 | The keyword and builtin matches are non-empty, in order and do not overlap |
| `Highlight.WordSpansAreBoundedMatches` | app/text_widget_monkey_p.py:20-21 | A span is found iff the text there is a member of the set with a `\b` on both sides |
| `Highlight.Closing` | app/text_widget_monkey_p.py:501 | The non-greedy body with escapes closes at a delimiter, after at least the delimiter's length |
| `Highlight.QuoteSpansShape` | app/text_widget_monkey_p.py:501-506 | String matches come in order, and each opens and closes with the same quote |
| `Highlight.TripleOpener` | app/text_widget_monkey_p.py:508 | A triple-quote opener is three characters occurring at the position |
| `Highlight.TripleSpansShape` | app/text_widget_monkey_p.py:508-514 | Triple-quoted matches come in order, and each is at least six characters long |
| `Highlight.CodeEndAsWritten` | app/text_widget_monkey_p.py:484-485 | The cut at the first `#`, as written, lies within the line |
| `Highlight.CodeEnd` | app/text_widget_monkey_p.py:484-485 | The corrected cut is the line end or a `#` |
| `Highlight.TagsOfScanBounds` | app/text_widget_monkey_p.py:485-506 | Keyword, builtin and string tags lie before the cut and are ordered |
| `Highlight.AsWrittenSpansBeforeHash` | app/text_widget_monkey_p.py:484-506 | As written, only the comment tag reaches past the line's first `#` |
| `Highlight.HashInStringAsWritten` | app/text_widget_monkey_p.py:484-506 | As written, `x = "a#b"` gets no string tag |
| `Highlight.UnclosedQuote` | app/text_widget_monkey_p.py:485-501 | What the as-written cut leaves, `x = "a`, holds no string literal |
| `Highlight.HashInStringCorrected` | app/text_widget_monkey_p.py:501-506 | With the corrected cut, `x = "a#b"` gets the string tag on columns 4 to 9 |
| `Highlight.CodeEndOutsideStrings` | app/text_widget_monkey_p.py:484-501 | The corrected cut never falls inside a string literal of the line |
| `Highlight.QuoteSpansPrefix` | app/text_widget_monkey_p.py:485-501 | Scanning up to the corrected cut finds exactly the whole line's literals that close before it |
| `Highlight.CorrectedTags` | app/text_widget_monkey_p.py:477-506 | String tags are the literals closing before the comment; no other tag reaches into the comment |
| `Highlight.TagsOfLineOrdered` | app/text_widget_monkey_p.py:473-506 | Every tag span of a line lies within the line, and each kind is in order |
| `EditorOps.PairAroundInLine` | app/text_widget_monkey_p.py:339-340 | The intended pair test holds iff an opener and its closer surround the cursor on its line |
| `EditorOps.BackspaceAtTextStartAsWritten` | app/text_widget_monkey_p.py:339-341 | At `1.0` with a leading quote, the test as written passes and deletes the quote after the cursor |
| `EditorOps.BackspacePairInLine` | app/text_widget_monkey_p.py:340-341 | Between a pair, backspace deletes one character on each side and leaves the cursor between |
| `EditorOps.BackspaceIndentInLine` | app/text_widget_monkey_p.py:345-351 | After four blanks, backspace deletes exactly those four |
| `EditorOps.Paired` | app/text_widget_monkey_p.py:212-213 | Without a selection the pair goes in at the cursor, and the cursor lands between |
| `EditorOps.Wrapped` | app/text_widget_monkey_p.py:205-210 | Wrapping a selection keeps the widget valid |
| `EditorOps.DeleteSelection` | app/text_widget_monkey_p.py:207 | Deleting exactly the selected text removes the selection |
| `EditorOps.WrappedText` | app/text_widget_monkey_p.py:205-210 | The selection ends up between the opener and its closer. The selection is gone and the cursor is past the closer |
| `EditorOps.BackspaceUndoesAutoclose` | app/text_widget_monkey_p.py:212-213 | Typing an opener then backspace gives the lines back |
| `EditorOps.SkipCloser` | app/text_widget_monkey_p.py:199-201 | Typing the closer that follows the cursor steps over it on the same line |
| `EditorOps.DeletedWord` | app/text_widget_monkey_p.py:428-441 | Delete-previous-word keeps the widget valid |
| `EditorOps.DeleteWordBefore` | app/text_widget_monkey_p.py:428-441 | The handler's steps compute `DeletedWord` |
| `EditorOps.DeletedWordText` | app/text_widget_monkey_p.py:435-441 | Deletes exactly the maximal word run before the cursor and leaves the cursor at its start; no-op without one |
| `EditorOps.JumpTarget` | app/text_widget_monkey_p.py:379-403 | A word jump lands on a valid index |
| `EditorOps.JumpIndex` | app/text_widget_monkey_p.py:377-403 | `_jump_word`'s scans compute `JumpTarget` |
| `EditorOps.JumpRight` | app/text_widget_monkey_p.py:379-390 | A right jump goes past the blanks and word (else `+1c`) and moves forward unless at the end |
| `EditorOps.JumpLeft` | app/text_widget_monkey_p.py:392-403 | A left jump goes to the word start (else `-1c`) and moves backward unless at `1.0` |
| `EditorOps.SelBetween` | app/text_widget_monkey_p.py:414-421 | The selection spans the two indices in order, and is absent iff they are equal |
| `EditorOps.PrefixAt` | app/text_widget_monkey_p.py:256-261 | The completion prefix is no longer than the column |
| `EditorOps.CursorPrefix` | app/text_widget_monkey_p.py:308-315 | Reading the line up to the cursor and scanning back computes `PrefixAt` |
| `EditorOps.StripPrefixEmpty` | app/text_widget_monkey_p.py:264 | `prefix.strip()` is empty iff the prefix is |
| `EditorOps.DeletedPrefix` | app/text_widget_monkey_p.py:316-317 | Deleting the prefix keeps the widget valid |
| `EditorOps.Completed` | app/text_widget_monkey_p.py:306-318 | Completing keeps the widget valid |
| `EditorOps.CompletedText` | app/text_widget_monkey_p.py:316-318 | The prefix before the cursor is replaced by the name, and the cursor lands after it |
| `EditorOps.IndentUpTo` | app/text_widget_monkey_p.py:243-244 | The block-indent loop keeps the widget valid and the number of lines |
| `EditorOps.IndentLines` | app/text_widget_monkey_p.py:243-244 | The block-indent loop computes `IndentUpTo` |
| `EditorOps.IndentUpToLines` | app/text_widget_monkey_p.py:243-244 | Four spaces go in front of exactly the handled lines |
| `EditorOps.UncommentStep` | app/text_widget_monkey_p.py:169-171 | Deleting a line's first `#` keeps the number of lines |
| `EditorOps.UncommentStepLines` | app/text_widget_monkey_p.py:169-171 | The `search` and `delete` step replaces the line by its uncommented form |
| `EditorOps.ToggleUpTo` | app/text_widget_monkey_p.py:165-174 | The toggle loop keeps the widget valid and the number of lines |
| `EditorOps.ToggleLines` | app/text_widget_monkey_p.py:165-174 | The second loop of the toggle computes `ToggleUpTo` |
| `EditorOps.ToggleLineStep` | app/text_widget_monkey_p.py:166-174 | One pass of the loop extends `ToggleUpTo` by one line |
| `EditorOps.ToggleUpToLines` | app/text_widget_monkey_p.py:165-174 | The toggle loop toggles exactly the handled lines |
| `EditorOps.SelLines` | app/text_widget_monkey_p.py:147-155 | The line range is the selection's lines or the cursor's line, and always a valid range |
| `EditorOps.ScanAllCommented` | app/text_widget_monkey_p.py:158-163 | The first loop finds whether every line of the range is commented |
| `EditorOps.ToggledLinesAll` | app/text_widget_monkey_p.py:157-174 | The two loops together give `Editing.Toggled` |
| `EditorOps.CoveredSome` | app/text_widget_monkey_p.py:473-506 | A column is covered iff some span contains it |
| `EditorOps.SpanCharsSpec` | app/text_widget_monkey_p.py:490-492 | One `tag_add` per span tags exactly the positions the spans cover, shifted to the line |
| `EditorOps.SpansOf` | app/text_widget_monkey_p.py:473-474 | One span list per line |
| `EditorOps.SpansOfAt` | app/text_widget_monkey_p.py:473-474 | Entry `j` holds line `j`'s spans |
| `EditorOps.LineSpansOrdered` | app/text_widget_monkey_p.py:473-506 | A line's spans of each kind are ordered and within the line |
| `EditorOps.SpansOfWithin` | app/text_widget_monkey_p.py:473-506 | Every line's spans lie within that line |
| `EditorOps.ColorifyCharsStep` | app/text_widget_monkey_p.py:473-514 | One pass of the loop adds that line's spans and the triple-quoted strings |
| `EditorOps.TagLine` | app/text_widget_monkey_p.py:473-514 | The `tag_add` calls of one pass compute that step |
| `EditorOps.RecolourLines` | app/text_widget_monkey_p.py:455-514 | Starting from cleared tags, the loop over the visible lines computes each tag's characters |
| `EditorOps.Recolour` | app/text_widget_monkey_p.py:454-514 | The recolour changes only the tags, and they become `ColorifyTags` |
| `EditorOps.SpanCharsAt` | app/text_widget_monkey_p.py:490-492 | A line's spans tag a character iff it is on that line and covered |
| `EditorOps.ColorifyCharsAt` | app/text_widget_monkey_p.py:473-514 | Tagged iff on a handled line and covered, or in the extra set and some line was handled |
| `EditorOps.ColorifyTagsAt` | app/text_widget_monkey_p.py:473-514 | A character has a tag iff its line is visible and covered by that kind's spans, or it is in a triple-quoted string |
| `EditorWidget.PatchedText.constructor` | app/text_widget_monkey_p.py:28-35 | A new widget: one empty line, cursor at `1.0`, no selection, tags, pending job or menu |
| `EditorWidget.PatchedText.AfterColorify` | app/text_widget_monkey_p.py:516-519 | The pending job is cancelled and exactly one new job is pending |
| `EditorWidget.PatchedText.Insert` | app/text_widget_monkey_p.py:45-48 | Tk's insertion, then the recolour job is re-armed |
| `EditorWidget.PatchedText.Colorify` | app/text_widget_monkey_p.py:444-514 | The job is cancelled and forgotten; only the tags change, to `ColorifyTags` of the visible lines |
| `EditorWidget.PatchedText.AutoclosePairs` | app/text_widget_monkey_p.py:183-216 | Steps over a matching closer, else wraps or pairs for an opener (re-arming recolour), else leaves the key to Tk |
| `EditorWidget.PatchedText.WrapSelection` | app/text_widget_monkey_p.py:205-210 | The widget becomes `Wrapped`, and the recolour job is re-armed |
| `EditorWidget.PatchedText.InsertPair` | app/text_widget_monkey_p.py:212-214 | The widget becomes `Paired`, and the recolour job is re-armed |
| `EditorWidget.PatchedText.HandleBackspace` | app/text_widget_monkey_p.py:323-351 | Unhandled with a selection. Deletes around a pair, or four blanks before the cursor, else leaves the key to Tk |
| `EditorWidget.PatchedText.JumpWord` | app/text_widget_monkey_p.py:375-426 | The cursor moves to the jump target. A selecting jump selects from the anchor (set once); a plain jump clears both |
| `EditorWidget.PatchedText.CtrlJump` | app/text_widget_monkey_p.py:353-359 | Only the cursor moves; selection and anchor are cleared |
| `EditorWidget.PatchedText.ShiftCtrlJump` | app/text_widget_monkey_p.py:361-373 | The anchor is captured only when there is none; the selection runs from it to the target |
| `EditorWidget.PatchedText.DeleteLastWord` | app/text_widget_monkey_p.py:428-441 | The widget becomes `DeletedWord`; the key is not reported as handled |
| `EditorWidget.PatchedText.InsertCompletion` | app/text_widget_monkey_p.py:306-321 | The widget becomes `Completed` with the name, and the recolour job is re-armed |
| `EditorWidget.PatchedText.ChooseCompletion` | app/text_widget_monkey_p.py:290-292 | Choosing menu entry `k` completes that entry's name |
| `EditorWidget.PatchedText.HideAutocompleteMenu` | app/text_widget_monkey_p.py:218-222 | No menu remains |
| `EditorWidget.PatchedText.IndentSelection` | app/text_widget_monkey_p.py:238-245 | Lines the selection touches get four spaces, and the recolour job is re-armed |
| `EditorWidget.PatchedText.ShowAutocomplete` | app/text_widget_monkey_p.py:224-304 | Given list, else block indent, else four spaces when no prefix, else nothing without a source, else filtered and sorted completions |
| `EditorWidget.PatchedText.OfferCompletions` | app/text_widget_monkey_p.py:279-301 | The sorted candidates give nothing, the one completion or a menu |
| `EditorWidget.PatchedText.ToggleComments` | app/text_widget_monkey_p.py:144-176 | The touched lines are uncommented when all are comments, otherwise commented |
| `EditorWidget.PatchedText.CtrlPlus` | app/text_widget_monkey_p.py:134-176 | Re-arms recolour. With Ctrl (not Shift), keycode 65 selects all and moves the cursor to the end, and 191 or 51 toggles comments; other keys are unhandled |
| `NameCheck.FirstSegment` | app/name_checker.py:19 | `name.split('.')[0]`: a prefix without `.` that ends at a `.` or at the end |
| `NameCheck.WalkGrows` | app/name_checker.py:5-71 | A visit only adds names and only appends findings, and no new finding is a builtin or bound beforehand |
| `NameCheck.WalkAllGrows` | app/name_checker.py:5-71 | The same for a sequence of nodes |
| `NameCheck.NameVisit` | app/name_checker.py:10-15 | A store binds the name. A load is reported iff the name is neither bound nor a builtin. A delete does nothing |
| `NameCheck.ImportBinds` | app/name_checker.py:17-23 | `import` binds the alias or the first dotted segment, and `from` binds the alias or the name; no findings |
| `NameCheck.FunctionDefBindsFirst` | app/name_checker.py:52-59 | A `def` binds its name and parameters, so neither is reported anywhere inside it |
| `NameCheck.ModuleBindsTopNames` | app/name_checker.py:65-71 | Top-level `def` and `class` names are never reported, even before their definition |
| `NameCheck.CompTargetBound` | app/name_checker.py:25-50 | A list/set/generator comprehension's first target, when it is a simple name, is bound, and never reported in the comprehension |
| `NameCheck.DictCompTargetBound` | app/name_checker.py:41-50 | A dict comprehension's first target, when it is a simple name, is bound, and never reported in its generators, key or value |
| `NameCheck.WalkAllAfterFirst` | app/name_checker.py:65-71 | Later statements grow the state the first one leaves |
| `NameCheck.NestedForwardReported` | app/name_checker.py:52-71 | Inside a `def`, a call of a function defined later in the same body is reported |
| `NameCheck.NameChecker.constructor` | app/name_checker.py:6-8 | A new checker has no bound names and no findings |
| `NameCheck.NameChecker.Visit` | app/name_checker.py:10-71 | `visit(n)` updates the checker's fields to `Walk` of the node from the old state |
| `NameCheck.NameChecker.RegisterTopNames` | app/name_checker.py:66-69 | The pre-registration loop adds exactly the top-level names |
| `NameCheck.NameChecker.BindParams` | app/name_checker.py:53-57 | Adds exactly the name and the parameters |
| `NameCheck.NameChecker.BindAliases` | app/name_checker.py:17-23 | Adds exactly the names the import binds |
| `NameCheck.NameChecker.VisitAll` | app/name_checker.py:32-34 | Visiting nodes in order computes `WalkAll` |
| `RunPipeline.TrimmedSpec` | app/editor_app.py:242-247 | At most 2000 characters pass unchanged. Longer output keeps its first 2000 and gets the notice; never longer than 2023 |
| `RunPipeline.ReplaceTabs` | app/editor_app.py:172-173 | No tab remains, and tab-free code is unchanged |
| `RunPipeline.ReplaceTabsAppend` | app/editor_app.py:173 | Tab replacement distributes over concatenation |
| `RunPipeline.ReplaceTabsChar` | app/editor_app.py:173 | A tab becomes four spaces, and other characters stay |
| `RunPipeline.ReplaceTabsLength` | app/editor_app.py:173 | Each tab adds three characters |
| `RunPipeline.ShimDefinesInput` | app/editor_app.py:179-187 | Whatever code follows the shim, the result defines `input`; the shim has no tab |
| `RunPipeline.NeedsShimNewline` | app/editor_app.py:178 | A trailing newline creates no need for the shim |
| `RunPipeline.PrepareSpec` | app/editor_app.py:171-188 | The run code has no tab and needs no shim. The shim is added iff tab-free code calls `input` without defining it |
| `RunPipeline.PrepareIdempotent` | app/editor_app.py:171-188 | Running again executes exactly what the buffer shows after the first preparation, and changes nothing |
| `RunPipeline.LastScriptLine` | app/editor_app.py:205-212 | None iff no frame is the script's; otherwise the line of the script's last frame |
| `RunPipeline.ErrorLine` | app/editor_app.py:205-212 | The loop over the reversed traceback computes `LastScriptLine` |
| `RunPipeline.SyntaxErrorSpan` | app/editor_app.py:289-293 | The marker ends at `offset`, covers one character for a positive `offset`, and starts at column 0 otherwise |
| `RunPipeline.NameSpans` | app/editor_app.py:299-302 | One marker per finding, covering exactly the name's characters |
| `RunPipeline.CheckErrorsSpec` | app/editor_app.py:278-310 | A syntax error gives one marker and no findings. Otherwise there is one marker per non-builtin finding, and markers are cleared iff nothing was found |
| `RunPipeline.RunCheck` | app/editor_app.py:297-310 | A fresh `NameChecker` visiting the tree computes `CheckErrors` |
| `RunPipeline.App.constructor` | app/editor_app.py:19-21 | No process, button enabled, empty output and no error marks |
| `RunPipeline.App.BeginRun` | app/editor_app.py:167-193 | The button is disabled, and the output and run markers are cleared |
| `RunPipeline.App.StopCode` | app/editor_app.py:266-271 | A running process is dropped and the notice logged. The button is re-enabled in every case |
| `RunPipeline.App.Launch` | app/editor_app.py:232-261 | On success a process is held. On failure the error is logged, with no process and the button enabled |
| `RunPipeline.App.Finish` | app/editor_app.py:240-261 | Logs the trimmed output. After a stop it logs the NoneType error; after a failed run it marks the error line and logs the re-run's error, or the missing module unless the install was confirmed; finally it drops the process and enables the button |
| `RunPipeline.App.MarkErrorLine` | app/editor_app.py:200-229 | Marks the script's last line. It then logs a missing module (when not installing) or the error message |
| `TabsStore.Decimal` | app/editor_gui.py:95 | `str(n)`: non-empty digits, without a leading zero unless `n` is 0 |
| `TabsStore.DecimalRoundTrip` | app/editor_gui.py:95-97 | Reading back the digits of `str(n)` gives `n` |
| `TabsStore.AfterLast` | app/editor_gui.py:97 | `split(c)[-1]`: a suffix without `c` that follows a `c` or is the whole string |
| `TabsStore.MaxId` | app/editor_gui.py:90-93 | `MAX(id)`: NULL iff the table is empty; otherwise an id of a row that no id exceeds |
| `TabsStore.NextTabNumber` | app/editor_gui.py:93-94 | One more than the highest id in the table (`MAX(id) + 1`), and 1 on an empty table |
| `TabsStore.NewTabIdLabel` | app/editor_gui.py:85-100 | Reopening a new tab under its id gives the same label, and the id ends in the tab's number |
| `TabsStore.AfterLastDigits` | app/editor_gui.py:97 | Splitting `p_d` at the last underscore gives `d` when `d` has none |
| `TabsStore.CodeStore.constructor` | app/editor_gui.py:71-83 | An empty table |
| `TabsStore.CodeStore.NewestWithTab` | app/editor_gui.py:60-61 | None iff no row has the tab; otherwise the row of that tab with the highest id |
| `TabsStore.CodeStore.Upsert` | app/editor_gui.py:57-69 | Updates the tab's newest row, or appends one row whose id is above every id, keeping ids distinct |
| `TabsStore.CodeStore.GetLastCode` | app/editor_gui.py:49-55 | The code of the highest-id row, or `""` on an empty table |
| `TabsStore.CodeStore.NewTabId` | app/editor_gui.py:86-95 | The id `tab_<MAX(id)+1>` |
| `TabsStore.RestoreText.Animated` | app/editor_gui.py:110-114 | An animated tab starts empty, restoring from index 0 |
| `TabsStore.RestoreText.Plain` | app/editor_gui.py:116-117 | A plain tab shows the whole code at once |
| `TabsStore.RestoreText.RestoreNextChar` | app/editor_gui.py:141-147 | Appends the next character unless none is left; the shown text stays a prefix of the code |
| `TabsStore.RestoreText.ReplayPresses` | app/editor_gui.py:110-147 | `k` presses on a fresh animated tab show the code's first `min(k, len)` characters |

## Left out

- The completion library (jedi) is not modelled. `ShowAutocomplete` takes its result as a parameter, `None` when jedi is missing or raises.
- `EditorWidget.PatchedText.ShowAutocomplete`: the xlwings workbook listing (`_get_opened_workbooks`, `show_workbooks_autocomplete`) is not modelled, because it needs Excel over COM. The source calls it first (`text_widget_monkey_p.py:234`); when the cursor is inside the quotes of `.books('…')` it deletes the quoted name, whatever xlwings returns (`text_widget_monkey_p.py:114-120`), and when the list is empty the now-empty prefix then gets four spaces. The model does neither: it behaves as if the cursor were never inside such quotes.
- `EditorWidget.PatchedText.HandleBackspace` follows the corrected pair test of the findings table. With text `"x` and the cursor at `1.0` it leaves the key to Tk's own backspace (which does nothing there), where the source deletes the quote after the cursor; `EditorOps.BackspaceAtTextStartAsWritten` states the source's behaviour.
- `EditorWidget.PatchedText.Colorify` follows the corrected comment cut of the findings table. For `x = "a#b"` it tags the string literal, and for `s = "#" if a else b` it tags the keywords after the literal, where the source tags no string in the first line and no keyword in the second; `Highlight.HashInStringAsWritten` states the source's behaviour.
- The focused widget (`get_active_text`, `text_widget_monkey_p.py:91-95`) is taken to be the widget itself, so the handlers act on `self`. The early return of `colorify` when no text widget has focus (`text_widget_monkey_p.py:450-452`) is not modelled.
- `EditorWidget.PatchedText.JumpWord`: a selecting jump whose target is Tk's `end`, after the final newline, selects only up to `end-1c`. Tk's `end` is the target of `+1c` at the end of the text; it is also where a stale anchor on a line past the last resolves. `tag_add` keeps `end` as a selection end (`text_widget_monkey_p.py:405-421`), so the source's selection covers the final newline. Example: text `ab`, cursor at `1.2`, no anchor, Shift+Ctrl+Right. The source leaves the cursor at `1.2` and selects `1.2`..`2.0`. The model leaves the cursor there too, but the selection is empty, so it has none. The next Tab, opener or Ctrl+/ then acts on that selection in the source (indenting, wrapping or toggling line 2 as well), and without it in the model.
- `EditorWidget.PatchedText.ShiftCtrlJump` goes through `JumpWord` and shares the same gap at Tk's `end`.
- `EditorWidget.PatchedText.DeleteLastWord`: `return "break"` is commented out (`text_widget_monkey_p.py:442`), so after the handler Tk's class bindings for the key still run. The Text class `<BackSpace>` then deletes one more character, or the selection. The method returns `handled == false`, but that extra deletion is not modelled.
- `NameCheck.CompTargetBound` and `NameCheck.DictCompTargetBound` cover a first target that is a simple name. A tuple target (`for a, b in …`) is walked by `Walk`, but no lemma states that its names are bound.
- `TkText` does not measure the viewport. The visible lines `first`..`last` of `colorify` are parameters, including its fallback to all lines.
- Positioning and posting the menu (`bbox`, `post`, `unpost`) is not modelled; the menu is its list of entries.
- `see` and `update_idletasks` are not modelled.
- Tk's `after` timer is kept only as its set of pending jobs and its next id. The delay is not modelled.
- The timer firing is not modelled: `Colorify` runs when its caller calls it.
- A highlight tag is kept as whether each flat position carries it, not as Tk's list of tag ranges; edits move it through `TagAfterInsert` and `TagAfterDelete`.
- `EditorWidget.PatchedText.IndentSelection` re-arms the recolour job once, where the source re-arms it once per line. The same goes for `EditorWidget.PatchedText.ToggleComments` when it comments; uncommenting goes through `delete` and leaves the job alone.
- `KEYWORDS` and the builtin names are not computed. They are the widget's given sets, and `dir(builtins)` is the checker's given set.
- A Python `\w`, `\b`, `isalnum` or `lower` is Unicode-aware. The model's word characters and lower-casing are ASCII only; whitespace matches `str.isspace`.
- The `sel_anchor` attribute is never set in `__init__`. The model starts it at `None`, the value the handlers test for.
- Binding the keys to the widget, the GUI stubs that forward to it, and `main.py` are not modelled. `main.py` does not install the patched widget.
- The run code (`editor_app.py:176`) calls `text.colrify()`, a misspelling. That raises when the code has tabs. `RunPipeline.Prepare` carries on as if the recolour happened; it does not change the text.
- The child process, the threads, the temporary file, `compile`/`exec`, `pip` and the message boxes are not modelled. Their results are parameters: the streams, the return code, the re-run's traceback and the user's answer.
- `ast.parse` is not modelled: `NameCheck.CheckErrors` takes its outcome as the `Parse` value, a syntax error's position or the tree.
- `RunPipeline.App.StopCode` logs to the active tab's output pane (`get_active_output()`). The model has one output log and does not tell the active tab's pane apart from the running tab's.
- The race between `execute` and `stop_code` is not modelled as threads. It is the call order `Launch`, `StopCode`, `Finish`, with the `hasProcess` flag.
- An I/O failure inside `Finish` is not modelled; only Popen's failure goes through `Launch`.
- `RunPipeline.App.MarkErrorLine`: an installed module and the message boxes leave no trace in the model, and the install itself is not modelled.
- `RunPipeline.Prepare` models the widget's text with Tk's final newline, as `get("1.0", "end")` returns it.
- `NameCheck.Walk` puts nodes other than those the checker visits under `Generic` (their children in `generic_visit` order). That includes `AsyncFunctionDef`, `Lambda` and `arg`.
- `NameCheck.Walk` adds the name in `visit_FunctionDef` once, which is the same for a set as adding it twice.
- `cancel_restore` is not modelled. Its `Escape` binding is overwritten and `current_job` is never set, so it never acts.
- `manage_codes`, the font-size controls, `save_current_code`, `close_editor`, `quit_app` and `on_close` are not modelled. They are GUI dialogs and window management, not part of this model.
- The SQLite database is a list of rows, with `lastId` for `AUTOINCREMENT`. The timestamp is a parameter.
- `TabsStore.CodeStore.NewestWithTab` returns an index into the row list, not the row id.
- `RunPipeline.App.MarkErrorLine` marks whole lines as a set of line numbers, with no Tk tag ranges.
- `main.py` and `lib/progress.py` are not part of this model.

## Findings

| source | as written | input that shows it | evidently intended | confidence | as-written member | corrected member |
|---|---|---|---|---|---|---|
| app/text_widget_monkey_p.py:339-341 | The pair test reads the previous character at `insert-1c`, and Tk clamps that to `1.0` | Text `"x"` with the cursor at `1.0`: backspace deletes the quote after the cursor | The pair test applies only when a character precedes the cursor | not executed | `EditorOps.BackspaceAtTextStartAsWritten` | `EditorOps.PairAroundInLine` (used by `EditorWidget.PatchedText.HandleBackspace`) |
| app/text_widget_monkey_p.py:484-506 | `scan_line` is cut at the first `#`, even inside a string literal | Line `x = "a#b"`: no string tag | The cut is at the first `#` outside string literals, so the literal is tagged | not executed | `Highlight.HashInStringAsWritten` | `Highlight.HashInStringCorrected` and `Highlight.CorrectedTags` (used by `EditorOps.LineSpans`) |
