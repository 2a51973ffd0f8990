/**
 * The state of a Tk text widget as the editor sees it, and the widget
 * operations the editor calls: `insert`, `delete`, `mark_set("insert", …)`,
 * `tag_add("sel", …)` and `tag_remove("sel", …)`.
 *
 * Besides its lines, the widget keeps the `insert` mark (the cursor), the
 * `sel` tag (the selection) and the four highlight tags.  Edits move the
 * mark and the tag boundaries the way Tk does, in terms of flat positions.
 */
module TkText {
  import opened Wrappers
  import opened Buffer

  /** The `sel` tag: the characters from `first` up to, not including, `last`. */
  datatype Range = Range(first: Pos, last: Pos)

  /**
   * A highlight tag, as whether the character at each flat position carries
   * it; the positions past the end of the sequence do not.
   */
  type Tag = seq<bool>

  predicate Tagged(T: Tag, c: nat)
  {
    c < |T| && T[c]
  }

  /** The four highlight tags. */
  datatype Tags = Tags(comment: Tag, keyword: Tag, str: Tag, builtin: Tag)
  {
    function AfterInsert(o: nat, n: nat): Tags
    {
      Tags(TagAfterInsert(comment, o, n), TagAfterInsert(keyword, o, n),
           TagAfterInsert(str, o, n), TagAfterInsert(builtin, o, n))
    }

    function AfterDelete(a: nat, b: nat): Tags
      requires a <= b
    {
      Tags(TagAfterDelete(comment, a, b), TagAfterDelete(keyword, a, b),
           TagAfterDelete(str, a, b), TagAfterDelete(builtin, a, b))
    }
  }

  /** The tag that exactly the positions below `n` that are in `S` carry. */
  function Holds(S: set<nat>, n: nat): (T: Tag)
    ensures |T| == n
  {
    seq(n, c requires 0 <= c < n => c in S)
  }

  lemma HoldsSpec(S: set<nat>, n: nat, c: nat)
    ensures Tagged(Holds(S, n), c) <==> c < n && c in S
  {
  }

  const NoTags := Tags([], [], [], [])

  /** `n` copies of `b`. */
  function Repeat(b: bool, n: nat): (r: seq<bool>)
    ensures |r| == n
  {
    if n == 0 then [] else Repeat(b, n - 1) + [b]
  }

  lemma {:induction false} RepeatAt(b: bool, n: nat, i: nat)
    requires i < n
    ensures Repeat(b, n)[i] == b
  {
    if i < n - 1 {
      RepeatAt(b, n - 1, i);
    }
  }

  /** The widget: its lines, the `insert` mark, the `sel` tag and the highlight tags. */
  datatype Text = Text(lines: seq<string>, cursor: Pos, sel: Option<Range>, tags: Tags)

  /** A `sel` tag, when present, covers at least one character. */
  predicate SelValid(L: seq<string>, sel: Option<Range>)
  {
    sel.Some? ==> ValidPos(L, sel.value.first) && ValidPos(L, sel.value.last) && PosLt(sel.value.first, sel.value.last)
  }

  predicate Valid(t: Text)
  {
    WellFormed(t.lines) && ValidPos(t.lines, t.cursor) && SelValid(t.lines, t.sel)
  }

  /**
   * A tag after inserting `n` characters at flat position `o`: tagged
   * characters keep their tag and move with the text, and the new characters
   * carry the tag exactly when the characters on both sides of the insertion
   * point carry it.
   */
  function TagAfterInsert(T: Tag, o: nat, n: nat): Tag
  {
    if o <= |T| then T[..o] + Repeat(o > 0 && Tagged(T, o - 1) && Tagged(T, o), n) + T[o..] else T
  }

  lemma TagAfterInsertSpec(T: Tag, o: nat, n: nat, c: nat)
    ensures c < o ==> Tagged(TagAfterInsert(T, o, n), c) == Tagged(T, c)
    ensures c >= o ==> Tagged(TagAfterInsert(T, o, n), c + n) == Tagged(T, c)
    ensures o <= c < o + n ==> Tagged(TagAfterInsert(T, o, n), c) == (o > 0 && Tagged(T, o - 1) && Tagged(T, o))
  {
    if o <= |T| && o <= c < o + n {
      RepeatAt(o > 0 && Tagged(T, o - 1) && Tagged(T, o), n, c - o);
    }
  }

  /** The flat positions `[lo, hi)`. */
  function Between(lo: nat, hi: nat): (r: set<nat>)
    ensures forall c :: c in r <==> lo <= c < hi
    decreases hi
  {
    if hi <= lo then {} else Between(lo, hi - 1) + {hi - 1}
  }

  /** A tag after deleting the flat range `[a, b)`: the deleted characters are gone and the later ones move back. */
  function TagAfterDelete(T: Tag, a: nat, b: nat): Tag
    requires a <= b
  {
    if b <= |T| then T[..a] + T[b..] else if a < |T| then T[..a] else T
  }

  lemma TagAfterDeleteSpec(T: Tag, a: nat, b: nat, c: nat)
    requires a <= b
    ensures c < a ==> Tagged(TagAfterDelete(T, a, b), c) == Tagged(T, c)
    ensures c >= a ==> Tagged(TagAfterDelete(T, a, b), c) == Tagged(T, c + (b - a))
  {
  }

  /** The `sel` tag after `insert(p, s)`: its start moves like a right-gravity mark, its end like a left-gravity one. */
  function SelAfterInsert(L: seq<string>, p: Pos, s: string, sel: Option<Range>): Option<Range>
    requires ValidPos(L, p) && SelValid(L, sel)
  {
    if sel.None? then None
    else Some(Range(MarkAfterInsert(L, p, s, sel.value.first, true), MarkAfterInsert(L, p, s, sel.value.last, false)))
  }

  /** Insertion never empties the selection: its end moves at least as far as its start. */
  lemma SelAfterInsertValid(L: seq<string>, p: Pos, s: string, sel: Option<Range>)
    requires ValidPos(L, p) && SelValid(L, sel)
    ensures SelValid(InsertAt(L, p, s), SelAfterInsert(L, p, s, sel))
  {
    if sel.Some? {
      var f := MarkAfterInsert(L, p, s, sel.value.first, true);
      var l := MarkAfterInsert(L, p, s, sel.value.last, false);
      MarkAfterInsertSpec(L, p, s, sel.value.first, true);
      MarkAfterInsertSpec(L, p, s, sel.value.last, false);
      OffsetOrder(L, sel.value.first, sel.value.last);
      OffsetOrder(InsertAt(L, p, s), f, l);
    }
  }

  /** The `sel` tag after `delete(a, b)`: it disappears when every selected character is deleted. */
  function SelAfterDelete(L: seq<string>, a: Pos, b: Pos, sel: Option<Range>): Option<Range>
    requires ValidPos(L, a) && ValidPos(L, b) && PosLe(a, b) && SelValid(L, sel)
  {
    if sel.None? then None
    else
      var f := MarkAfterDelete(L, a, b, sel.value.first);
      var l := MarkAfterDelete(L, a, b, sel.value.last);
      if f == l then None else Some(Range(f, l))
  }

  /** After a deletion the selection is still in order, or gone when it became empty. */
  lemma SelAfterDeleteValid(L: seq<string>, a: Pos, b: Pos, sel: Option<Range>)
    requires ValidPos(L, a) && ValidPos(L, b) && PosLe(a, b) && SelValid(L, sel)
    ensures SelValid(DeleteRange(L, a, b), SelAfterDelete(L, a, b, sel))
  {
    if sel.Some? {
      var f := MarkAfterDelete(L, a, b, sel.value.first);
      var l := MarkAfterDelete(L, a, b, sel.value.last);
      MarkAfterDeleteSpec(L, a, b, sel.value.first);
      MarkAfterDeleteSpec(L, a, b, sel.value.last);
      OffsetOrder(L, sel.value.first, sel.value.last);
      OffsetOrder(DeleteRange(L, a, b), f, l);
    }
  }

  /** Tk's `insert(p, s)`. */
  function Insert(t: Text, p: Pos, s: string): (r: Text)
    requires Valid(t) && ValidPos(t.lines, p)
    ensures Valid(r)
    ensures r.lines == InsertAt(t.lines, p, s)
  {
    InsertAtWellFormed(t.lines, p, s);
    MarkAfterInsertSpec(t.lines, p, s, t.cursor, true);
    SelAfterInsertValid(t.lines, p, s, t.sel);
    Text(InsertAt(t.lines, p, s), MarkAfterInsert(t.lines, p, s, t.cursor, true),
         SelAfterInsert(t.lines, p, s, t.sel), t.tags.AfterInsert(Offset(t.lines, p), |s|))
  }

  /** Tk's `delete(a, b)`; nothing happens unless `a` comes before `b`. */
  function Delete(t: Text, a: Pos, b: Pos): (r: Text)
    requires Valid(t) && ValidPos(t.lines, a) && ValidPos(t.lines, b)
    ensures Valid(r)
    ensures !PosLt(a, b) ==> r == t
    ensures PosLt(a, b) ==> r.lines == DeleteRange(t.lines, a, b)
  {
    if !PosLt(a, b) then t
    else
      DeleteRangeWellFormed(t.lines, a, b);
      OffsetMonotone(t.lines, a, b);
      MarkAfterDeleteSpec(t.lines, a, b, t.cursor);
      SelAfterDeleteValid(t.lines, a, b, t.sel);
      Text(DeleteRange(t.lines, a, b), MarkAfterDelete(t.lines, a, b, t.cursor),
           SelAfterDelete(t.lines, a, b, t.sel), t.tags.AfterDelete(Offset(t.lines, a), Offset(t.lines, b)))
  }

  /** In flat terms, `insert(p, s)` puts `s` at `p`'s offset and moves the cursor like a right-gravity mark. */
  lemma InsertFlat(t: Text, p: Pos, s: string)
    requires Valid(t) && ValidPos(t.lines, p)
    ensures Offset(t.lines, p) <= |Join(t.lines)|
    ensures var r := Insert(t, p, s);
      Join(r.lines) == Join(t.lines)[..Offset(t.lines, p)] + s + Join(t.lines)[Offset(t.lines, p)..] &&
      Offset(r.lines, r.cursor) == ShiftForInsert(Offset(t.lines, t.cursor), Offset(t.lines, p), |s|, true)
  {
    JoinInsertAt(t.lines, p, s);
    MarkAfterInsertSpec(t.lines, p, s, t.cursor, true);
  }

  /** In flat terms, `delete(a, b)` removes the characters between the two offsets and moves the cursor back over them. */
  lemma DeleteFlat(t: Text, a: Pos, b: Pos)
    requires Valid(t) && ValidPos(t.lines, a) && ValidPos(t.lines, b) && PosLe(a, b)
    ensures Offset(t.lines, a) <= Offset(t.lines, b) <= |Join(t.lines)|
    ensures var r := Delete(t, a, b);
      Join(r.lines) == Join(t.lines)[..Offset(t.lines, a)] + Join(t.lines)[Offset(t.lines, b)..] &&
      Offset(r.lines, r.cursor) == ShiftForDelete(Offset(t.lines, t.cursor), Offset(t.lines, a), Offset(t.lines, b))
  {
    JoinDeleteRange(t.lines, a, b);
    OffsetMonotone(t.lines, a, b);
    if PosLt(a, b) {
      MarkAfterDeleteSpec(t.lines, a, b, t.cursor);
    }
  }

  /** `mark_set("insert", p)`. */
  function MarkSet(t: Text, p: Pos): (r: Text)
    requires Valid(t) && ValidPos(t.lines, p)
    ensures Valid(r) && r.lines == t.lines && r.cursor == p && r.sel == t.sel && r.tags == t.tags
  {
    t.(cursor := p)
  }

  /** `tag_remove("sel", "1.0", "end")` followed by `tag_add("sel", a, b)`: the selection becomes `[a, b)`, or none when that is empty. */
  function Select(t: Text, a: Pos, b: Pos): (r: Text)
    requires Valid(t) && ValidPos(t.lines, a) && ValidPos(t.lines, b)
    ensures Valid(r) && r.lines == t.lines && r.cursor == t.cursor && r.tags == t.tags
    ensures r.sel.Some? <==> PosLt(a, b)
    ensures r.sel.Some? ==> r.sel.value == Range(a, b)
  {
    t.(sel := if PosLt(a, b) then Some(Range(a, b)) else None)
  }

  //
  // Edits within one line.
  //

  /** Inserting text without a newline changes only `p`'s line and moves the cursor along that line. */
  lemma InsertInLine(t: Text, p: Pos, s: string)
    requires Valid(t) && ValidPos(t.lines, p) && NoNewline(s)
    ensures Insert(t, p, s).lines == t.lines[p.line - 1 := t.lines[p.line - 1][..p.col] + s + t.lines[p.line - 1][p.col..]]
    ensures Insert(t, p, s).cursor == ShiftPosForInsert(p, |s|, t.cursor, true)
  {
    InsertAtInLine(t.lines, p, s);
    MarkAfterInsertInLine(t.lines, p, s, t.cursor, true);
  }

  /** Deleting columns `[a, b)` of line `l` changes only that line and moves the cursor along it. */
  lemma DeleteInLineText(t: Text, l: nat, a: nat, b: nat)
    requires Valid(t) && 1 <= l <= |t.lines| && a <= b <= |t.lines[l - 1]|
    ensures Delete(t, Pos(l, a), Pos(l, b)).lines == t.lines[l - 1 := t.lines[l - 1][..a] + t.lines[l - 1][b..]]
    ensures Delete(t, Pos(l, a), Pos(l, b)).cursor == ShiftPosForDelete(l, a, b, t.cursor)
  {
    DeleteInLine(t.lines, l, a, b);
    if a < b {
      MarkAfterDeleteInLine(t.lines, l, a, b, t.cursor);
    } else {
      assert t.lines[l - 1][..a] + t.lines[l - 1][b..] == t.lines[l - 1];
    }
  }

  /** Deleting the text just inserted at `p` on one line gives the lines back. */
  lemma DeleteAfterInsert(t: Text, p: Pos, s: string)
    requires Valid(t) && ValidPos(t.lines, p) && NoNewline(s)
    ensures ValidPos(Insert(t, p, s).lines, p) && ValidPos(Insert(t, p, s).lines, Pos(p.line, p.col + |s|))
    ensures Delete(Insert(t, p, s), p, Pos(p.line, p.col + |s|)).lines == t.lines
  {
    DeleteInserted(t.lines, p, s);
    if s == [] {
      assert InsertAt(t.lines, p, s) == t.lines by {
        InsertAtInLine(t.lines, p, s);
        assert t.lines[p.line - 1][..p.col] + s + t.lines[p.line - 1][p.col..] == t.lines[p.line - 1];
      }
    }
  }
}
