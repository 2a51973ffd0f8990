/**
 * The text of a Tk text widget, its `line.col` indices and Tk's index
 * arithmetic.
 *
 * The content is a non-empty sequence of lines without newline characters;
 * Tk's always-present final newline is not part of it.  Tk moves indices by
 * characters over the flat text in which each line break counts as one
 * character (`index+1c` at a line end lands on the next line), so every
 * index computation goes through `Offset` (index to flat position) and
 * `PosAt` (flat position to index); they are inverse to each other.
 */
module Buffer {

  /** A Tk text index `line.col`: lines count from 1, columns from 0. */
  datatype Pos = Pos(line: nat, col: nat)

  predicate NoNewline(s: string)
  {
    forall i :: 0 <= i < |s| ==> s[i] != '\n'
  }

  /** The lines of a widget: at least one, none containing a newline. */
  predicate WellFormed(L: seq<string>)
  {
    |L| >= 1 && forall k :: 0 <= k < |L| ==> NoNewline(L[k])
  }

  predicate ValidPos(L: seq<string>, p: Pos)
  {
    1 <= p.line <= |L| && p.col <= |L[p.line - 1]|
  }

  /** Index order, as Tk's `compare` sees it. */
  predicate PosLt(p: Pos, q: Pos)
  {
    p.line < q.line || (p.line == q.line && p.col < q.col)
  }

  predicate PosLe(p: Pos, q: Pos)
  {
    p == q || PosLt(p, q)
  }

  /** The flat text: the lines joined with newline characters. */
  function Join(L: seq<string>): string
    requires |L| >= 1
  {
    if |L| == 1 then L[0] else Join(L[..|L| - 1]) + "\n" + L[|L| - 1]
  }

  function SumLens(L: seq<string>): nat
  {
    if L == [] then 0 else SumLens(L[..|L| - 1]) + |L[|L| - 1]|
  }

  /** Number of characters of the flat text before index `p`. */
  function Offset(L: seq<string>, p: Pos): nat
    requires 1 <= p.line <= |L|
  {
    SumLens(L[..p.line - 1]) + (p.line - 1) + p.col
  }

  /** The index of flat position `o`. */
  function PosAt(L: seq<string>, o: nat): Pos
    requires |L| >= 1 && o <= |Join(L)|
    decreases |L|
  {
    if |L| == 1 then Pos(1, o)
    else
      var m := |Join(L[..|L| - 1])|;
      if o <= m then PosAt(L[..|L| - 1], o) else Pos(|L|, o - m - 1)
  }

  /** The last index of the text (Tk's `end-1c`). */
  function EndPos(L: seq<string>): Pos
    requires |L| >= 1
  {
    Pos(|L|, |L[|L| - 1]|)
  }

  /** Tk's `p + n chars`, clamped at the end of the text. */
  function Advance(L: seq<string>, p: Pos, n: nat): (r: Pos)
    requires |L| >= 1 && ValidPos(L, p)
    ensures ValidPos(L, r)
    ensures Offset(L, p) <= |Join(L)|
    ensures Offset(L, r) == if Offset(L, p) + n <= |Join(L)| then Offset(L, p) + n else |Join(L)|
  {
    OffsetBound(L, p);
    var o := Offset(L, p) + n;
    var o' := if o <= |Join(L)| then o else |Join(L)|;
    OffsetOfPosAt(L, o');
    PosAt(L, o')
  }

  /** Tk's `p - n chars`, clamped at `1.0`. */
  function Retreat(L: seq<string>, p: Pos, n: nat): (r: Pos)
    requires |L| >= 1 && ValidPos(L, p)
    ensures ValidPos(L, r)
    ensures Offset(L, r) == if Offset(L, p) >= n then Offset(L, p) - n else 0
  {
    OffsetBound(L, p);
    var o := Offset(L, p);
    var o' := if o >= n then o - n else 0;
    OffsetOfPosAt(L, o');
    PosAt(L, o')
  }

  /** Tk's `get(p)`: the character at `p`, the newline at a line end. */
  function CharAt(L: seq<string>, p: Pos): char
    requires ValidPos(L, p)
  {
    if p.col < |L[p.line - 1]| then L[p.line - 1][p.col] else '\n'
  }

  /** Tk's normalisation of a stored index: a line past the end means the end of the text, a column past the line end means the line end. */
  function Clamp(L: seq<string>, p: Pos): (r: Pos)
    requires |L| >= 1 && p.line >= 1
    ensures ValidPos(L, r)
    ensures ValidPos(L, p) ==> r == p
    ensures p.line > |L| ==> r == EndPos(L)
    ensures p.line <= |L| && p.col > |L[p.line - 1]| ==> r == Pos(p.line, |L[p.line - 1]|)
  {
    if p.line > |L| then EndPos(L)
    else if p.col > |L[p.line - 1]| then Pos(p.line, |L[p.line - 1]|)
    else p
  }

  /** The lines of the flat text `s`, split at each newline (Python's `s.split('\n')`). */
  function Split(s: string): (P: seq<string>)
    ensures |P| >= 1
    ensures forall k :: 0 <= k < |P| ==> NoNewline(P[k])
  {
    if s == [] then [""]
    else
      var P := Split(s[..|s| - 1]);
      var c := s[|s| - 1];
      if c == '\n' then P + [""] else P[..|P| - 1] + [P[|P| - 1] + [c]]
  }

  /** Prepends `a` to the first element and appends `b` to the last one. */
  function Wrap(P: seq<string>, a: string, b: string): (W: seq<string>)
    requires |P| >= 1
    ensures |W| == |P|
  {
    var Q := P[0 := a + P[0]];
    Q[|Q| - 1 := Q[|Q| - 1] + b]
  }

  /** The lines after Tk's `insert(p, s)`. */
  function InsertAt(L: seq<string>, p: Pos, s: string): seq<string>
    requires ValidPos(L, p)
  {
    var k := p.line - 1;
    L[..k] + Wrap(Split(s), L[k][..p.col], L[k][p.col..]) + L[k + 1..]
  }

  /** The lines after Tk's `delete(a, b)`. */
  function DeleteRange(L: seq<string>, a: Pos, b: Pos): seq<string>
    requires ValidPos(L, a) && ValidPos(L, b) && PosLe(a, b)
  {
    L[..a.line - 1] + [L[a.line - 1][..a.col] + L[b.line - 1][b.col..]] + L[b.line..]
  }

  /** Tk's `get(a, b)`: the flat text between two indices. */
  function GetText(L: seq<string>, a: Pos, b: Pos): string
    requires ValidPos(L, a) && ValidPos(L, b) && PosLe(a, b)
  {
    OffsetBound(L, b);
    OffsetMonotone(L, a, b);
    Join(L)[Offset(L, a)..Offset(L, b)]
  }

  /**
   * Where a mark or a tag boundary at flat position `o` ends up when `n`
   * characters are inserted at flat position `at`.  The `insert` mark has
   * right gravity; the start of a tag range moves like it and the end of a
   * tag range stays put, because Tk gives inserted characters a tag only when
   * the characters on both sides carry it.
   */
  function ShiftForInsert(o: nat, at: nat, n: nat, rightGravity: bool): nat
  {
    if o > at || (o == at && rightGravity) then o + n else o
  }

  /** Where a mark at flat position `o` ends up when the flat range `[a, b)` is deleted. */
  function ShiftForDelete(o: nat, a: nat, b: nat): nat
    requires a <= b
  {
    if o >= b then o - (b - a) else if o > a then a else o
  }

  /** The index of a mark at `q` after `insert(p, s)`: its flat position moves as `ShiftForInsert` says. */
  function MarkAfterInsert(L: seq<string>, p: Pos, s: string, q: Pos, rightGravity: bool): Pos
    requires ValidPos(L, p) && ValidPos(L, q)
  {
    JoinInsertAt(L, p, s);
    OffsetBound(L, q);
    PosAt(InsertAt(L, p, s), ShiftForInsert(Offset(L, q), Offset(L, p), |s|, rightGravity))
  }

  lemma MarkAfterInsertSpec(L: seq<string>, p: Pos, s: string, q: Pos, rightGravity: bool)
    requires ValidPos(L, p) && ValidPos(L, q)
    ensures var r := MarkAfterInsert(L, p, s, q, rightGravity);
      ValidPos(InsertAt(L, p, s), r) &&
      Offset(InsertAt(L, p, s), r) == ShiftForInsert(Offset(L, q), Offset(L, p), |s|, rightGravity)
  {
    JoinInsertAt(L, p, s);
    OffsetBound(L, q);
    OffsetOfPosAt(InsertAt(L, p, s), ShiftForInsert(Offset(L, q), Offset(L, p), |s|, rightGravity));
  }

  /** The index of a mark at `q` after `delete(a, b)`: its flat position moves as `ShiftForDelete` says. */
  function MarkAfterDelete(L: seq<string>, a: Pos, b: Pos, q: Pos): Pos
    requires ValidPos(L, a) && ValidPos(L, b) && PosLe(a, b) && ValidPos(L, q)
  {
    JoinDeleteRange(L, a, b);
    OffsetBound(L, q);
    PosAt(DeleteRange(L, a, b), ShiftForDelete(Offset(L, q), Offset(L, a), Offset(L, b)))
  }

  lemma MarkAfterDeleteSpec(L: seq<string>, a: Pos, b: Pos, q: Pos)
    requires ValidPos(L, a) && ValidPos(L, b) && PosLe(a, b) && ValidPos(L, q)
    ensures Offset(L, a) <= Offset(L, b)
    ensures var r := MarkAfterDelete(L, a, b, q);
      ValidPos(DeleteRange(L, a, b), r) &&
      Offset(DeleteRange(L, a, b), r) == ShiftForDelete(Offset(L, q), Offset(L, a), Offset(L, b))
  {
    JoinDeleteRange(L, a, b);
    OffsetBound(L, q);
    OffsetOfPosAt(DeleteRange(L, a, b), ShiftForDelete(Offset(L, q), Offset(L, a), Offset(L, b)));
  }

  //
  // Lemmas about the flat view.
  //

  lemma {:induction false} LenJoin(L: seq<string>)
    requires |L| >= 1
    ensures |Join(L)| == SumLens(L) + |L| - 1
    decreases |L|
  {
    if |L| > 1 {
      LenJoin(L[..|L| - 1]);
    }
  }

  lemma SumLensStep(L: seq<string>, i: nat)
    requires i < |L|
    ensures SumLens(L[..i + 1]) == SumLens(L[..i]) + |L[i]|
  {
    assert L[..i + 1][..i] == L[..i];
  }

  lemma {:induction false} SumLensMono(L: seq<string>, i: nat, j: nat)
    requires i <= j <= |L|
    ensures SumLens(L[..i]) <= SumLens(L[..j])
    decreases j - i
  {
    if i < j {
      SumLensStep(L, j - 1);
      SumLensMono(L, i, j - 1);
    }
  }

  lemma OffsetBound(L: seq<string>, p: Pos)
    requires |L| >= 1 && ValidPos(L, p)
    ensures Offset(L, p) <= |Join(L)|
  {
    SumLensStep(L, p.line - 1);
    SumLensMono(L, p.line, |L|);
    assert L[..|L|] == L;
    LenJoin(L);
  }

  /** Later indices have larger flat positions. */
  lemma OffsetMonotone(L: seq<string>, p: Pos, q: Pos)
    requires ValidPos(L, p) && ValidPos(L, q) && PosLe(p, q)
    ensures Offset(L, p) <= Offset(L, q)
    ensures PosLt(p, q) ==> Offset(L, p) < Offset(L, q)
  {
    if p.line < q.line {
      SumLensStep(L, p.line - 1);
      SumLensMono(L, p.line, q.line - 1);
    }
  }

  /** Tk's index order is the order of flat positions. */
  lemma OffsetOrder(L: seq<string>, p: Pos, q: Pos)
    requires ValidPos(L, p) && ValidPos(L, q)
    ensures PosLt(p, q) <==> Offset(L, p) < Offset(L, q)
    ensures p == q <==> Offset(L, p) == Offset(L, q)
  {
    if PosLt(p, q) {
      OffsetMonotone(L, p, q);
    } else if PosLt(q, p) {
      OffsetMonotone(L, q, p);
    }
  }

  lemma OffsetPrefix(L: seq<string>, p: Pos)
    requires |L| > 1 && 1 <= p.line < |L|
    ensures Offset(L, p) == Offset(L[..|L| - 1], p)
  {
    assert L[..|L| - 1][..p.line - 1] == L[..p.line - 1];
  }

  /** `PosAt` yields a valid index at the requested flat position. */
  lemma {:induction false} OffsetOfPosAt(L: seq<string>, o: nat)
    requires |L| >= 1 && o <= |Join(L)|
    ensures ValidPos(L, PosAt(L, o)) && Offset(L, PosAt(L, o)) == o
    decreases |L|
  {
    if |L| > 1 {
      var L' := L[..|L| - 1];
      LenJoin(L');
      if o <= |Join(L')| {
        OffsetOfPosAt(L', o);
        OffsetPrefix(L, PosAt(L', o));
      }
    } else {
      LenJoin(L);
    }
  }

  /** `PosAt` undoes `Offset`. */
  lemma {:induction false} PosAtOfOffset(L: seq<string>, p: Pos)
    requires |L| >= 1 && ValidPos(L, p)
    ensures Offset(L, p) <= |Join(L)|
    ensures PosAt(L, Offset(L, p)) == p
    decreases |L|
  {
    OffsetBound(L, p);
    if |L| > 1 {
      var L' := L[..|L| - 1];
      LenJoin(L');
      if p.line < |L| {
        OffsetPrefix(L, p);
        OffsetBound(L', p);
        PosAtOfOffset(L', p);
      }
    }
  }

  /** Moving within a line: `p + n chars` stays on the line while it fits. */
  lemma AdvanceInLine(L: seq<string>, p: Pos, n: nat)
    requires |L| >= 1 && ValidPos(L, p) && p.col + n <= |L[p.line - 1]|
    ensures Advance(L, p, n) == Pos(p.line, p.col + n)
  {
    var q := Pos(p.line, p.col + n);
    OffsetBound(L, q);
    PosAtOfOffset(L, q);
  }

  lemma RetreatInLine(L: seq<string>, p: Pos, n: nat)
    requires |L| >= 1 && ValidPos(L, p) && n <= p.col
    ensures Retreat(L, p, n) == Pos(p.line, p.col - n)
  {
    PosAtOfOffset(L, Pos(p.line, p.col - n));
  }

  /** At a line end `+1c` goes to the start of the next line; at the end of the text it stays. */
  lemma AdvanceAtLineEnd(L: seq<string>, p: Pos)
    requires |L| >= 1 && ValidPos(L, p) && p.col == |L[p.line - 1]|
    ensures p.line < |L| ==> Advance(L, p, 1) == Pos(p.line + 1, 0)
    ensures p.line == |L| ==> Advance(L, p, 1) == p
  {
    OffsetBound(L, p);
    if p.line < |L| {
      var q := Pos(p.line + 1, 0);
      SumLensStep(L, p.line - 1);
      assert Offset(L, q) == Offset(L, p) + 1;
      PosAtOfOffset(L, q);
    } else {
      assert L[..|L|] == L;
      LenJoin(L);
      PosAtOfOffset(L, p);
    }
  }

  /** At a line start `-1c` goes to the end of the previous line; at `1.0` it stays. */
  lemma RetreatAtLineStart(L: seq<string>, p: Pos)
    requires |L| >= 1 && ValidPos(L, p) && p.col == 0
    ensures p.line > 1 ==> Retreat(L, p, 1) == Pos(p.line - 1, |L[p.line - 2]|)
    ensures p.line == 1 ==> Retreat(L, p, 1) == p
  {
    if p.line > 1 {
      var q := Pos(p.line - 1, |L[p.line - 2]|);
      SumLensStep(L, p.line - 2);
      assert Offset(L, q) + 1 == Offset(L, p);
      PosAtOfOffset(L, q);
    } else {
      PosAtOfOffset(L, p);
    }
  }

  /** Splitting the flat text at newlines and joining it again gives it back. */
  lemma {:induction false} JoinSplit(s: string)
    ensures Join(Split(s)) == s
    decreases |s|
  {
    if s != [] {
      var P := Split(s[..|s| - 1]);
      JoinSplit(s[..|s| - 1]);
      var c := s[|s| - 1];
      assert s == s[..|s| - 1] + [c];
      if c == '\n' {
        assert Split(s) == P + [""];
        JoinNewLine(P);
      } else {
        assert Split(s) == P[..|P| - 1] + [P[|P| - 1] + [c]];
        JoinExtendLast(P, c);
      }
    }
  }

  /** A new empty last line adds one newline to the flat text. */
  lemma JoinNewLine(P: seq<string>)
    requires |P| >= 1
    ensures Join(P + [""]) == Join(P) + "\n"
  {
    assert (P + [""])[..|P|] == P;
  }

  /** A character appended to the last line is appended to the flat text. */
  lemma JoinExtendLast(P: seq<string>, c: char)
    requires |P| >= 1
    ensures Join(P[..|P| - 1] + [P[|P| - 1] + [c]]) == Join(P) + [c]
  {
    var Q := P[..|P| - 1] + [P[|P| - 1] + [c]];
    if |P| > 1 {
      assert Q[..|Q| - 1] == P[..|P| - 1];
    }
  }

  /** A text without newline is a single line. */
  lemma {:induction false} SplitNoNewline(s: string)
    requires NoNewline(s)
    ensures Split(s) == [s]
    decreases |s|
  {
    if s != [] {
      SplitNoNewline(s[..|s| - 1]);
      assert s[..|s| - 1] + [s[|s| - 1]] == s;
    }
  }

  lemma {:induction false} JoinConcat(A: seq<string>, B: seq<string>)
    requires |A| >= 1 && |B| >= 1
    ensures Join(A + B) == Join(A) + "\n" + Join(B)
    decreases |B|
  {
    if |B| == 1 {
      assert (A + B)[..|A + B| - 1] == A;
    } else {
      assert (A + B)[..|A + B| - 1] == A + B[..|B| - 1];
      JoinConcat(A, B[..|B| - 1]);
    }
  }

  /** The flat text before line `k` (index from 0), including the newline that ends line `k - 1`. */
  function Before(L: seq<string>, k: nat): string
    requires k < |L|
  {
    if k == 0 then "" else Join(L[..k]) + "\n"
  }

  /** The flat text after line `k`, including the newline that ends line `k`. */
  function After(L: seq<string>, k: nat): string
    requires k < |L|
  {
    if k == |L| - 1 then "" else "\n" + Join(L[k + 1..])
  }

  lemma JoinAround(A: seq<string>, M: seq<string>, B: seq<string>)
    requires |M| >= 1
    ensures Join(A + M + B) ==
      (if A == [] then "" else Join(A) + "\n") + Join(M) + (if B == [] then "" else "\n" + Join(B))
  {
    var AM := A + M;
    if A != [] {
      JoinConcat(A, M);
    } else {
      assert AM == M;
    }
    if B != [] {
      JoinConcat(AM, B);
    } else {
      assert A + M + B == AM;
    }
  }

  /** Line `k` sits in the flat text between `Before` and `After`, at flat position `Offset`. */
  lemma JoinAt(L: seq<string>, k: nat)
    requires k < |L|
    ensures Join(L) == Before(L, k) + L[k] + After(L, k)
    ensures |Before(L, k)| == Offset(L, Pos(k + 1, 0))
  {
    assert L == L[..k] + [L[k]] + L[k + 1..];
    JoinAround(L[..k], [L[k]], L[k + 1..]);
    if k > 0 {
      LenJoin(L[..k]);
    }
  }

  /** The flat text before and after index `p`. */
  lemma JoinAtPos(L: seq<string>, p: Pos)
    requires |L| >= 1 && ValidPos(L, p)
    ensures Offset(L, p) <= |Join(L)|
    ensures Join(L)[..Offset(L, p)] == Before(L, p.line - 1) + L[p.line - 1][..p.col]
    ensures Join(L)[Offset(L, p)..] == L[p.line - 1][p.col..] + After(L, p.line - 1)
  {
    var k := p.line - 1;
    JoinAt(L, k);
    var B, x, A := Before(L, k), L[k], After(L, k);
    assert x == x[..p.col] + x[p.col..];
    Regroup3(Join(L), B, x[..p.col], x[p.col..], A);
    SplitAt(Join(L), B + x[..p.col], x[p.col..] + A);
  }

  lemma Regroup3(J: string, b: string, u: string, v: string, a: string)
    requires J == b + (u + v) + a
    ensures J == (b + u) + (v + a)
  {
  }

  /** A concatenation splits back into its two parts. */
  lemma SplitAt(J: string, u: string, v: string)
    requires J == u + v
    ensures J[..|u|] == u && J[|u|..] == v
  {
  }

  lemma {:induction false} JoinAppendLast(Q: seq<string>, b: string)
    requires |Q| >= 1
    ensures Join(Q[|Q| - 1 := Q[|Q| - 1] + b]) == Join(Q) + b
  {
    var W := Q[|Q| - 1 := Q[|Q| - 1] + b];
    if |Q| > 1 {
      assert W[..|W| - 1] == Q[..|Q| - 1];
    }
  }

  lemma JoinWrap(P: seq<string>, a: string, b: string)
    requires |P| >= 1
    ensures Join(Wrap(P, a, b)) == a + Join(P) + b
  {
    var Q := P[0 := a + P[0]];
    JoinPrependFirst(P, a);
    JoinAppendLast(Q, b);
  }

  lemma {:induction false} JoinPrependFirst(P: seq<string>, a: string)
    requires |P| >= 1
    ensures Join(P[0 := a + P[0]]) == a + Join(P)
    decreases |P|
  {
    if |P| > 1 {
      var Q := P[0 := a + P[0]];
      assert Q[..|Q| - 1] == P[..|P| - 1][0 := a + P[0]];
      JoinPrependFirst(P[..|P| - 1], a);
    }
  }

  /** The flat text when line `k` is replaced by the lines `M`. */
  lemma JoinReplaceLine(L: seq<string>, k: nat, kb: nat, M: seq<string>)
    requires k <= kb < |L| && |M| >= 1
    ensures Join(L[..k] + M + L[kb + 1..]) == Before(L, k) + Join(M) + After(L, kb)
  {
    JoinAround(L[..k], M, L[kb + 1..]);
  }

  /** Tk's `insert(p, s)` puts `s` into the flat text at `p`'s flat position. */
  lemma JoinInsertAt(L: seq<string>, p: Pos, s: string)
    requires |L| >= 1 && ValidPos(L, p)
    ensures |InsertAt(L, p, s)| >= 1
    ensures Offset(L, p) <= |Join(L)|
    ensures Join(InsertAt(L, p, s)) == Join(L)[..Offset(L, p)] + s + Join(L)[Offset(L, p)..]
    ensures |Join(InsertAt(L, p, s))| == |Join(L)| + |s|
  {
    var k := p.line - 1;
    var u, w := L[k][..p.col], L[k][p.col..];
    var M := Wrap(Split(s), u, w);
    assert Join(M) == u + s + w by {
      JoinWrap(Split(s), u, w);
      JoinSplit(s);
    }
    JoinReplaceLine(L, k, k, M);
    JoinAtPos(L, p);
    Regroup5(Before(L, k), u, s, w, After(L, k));
  }

  lemma Regroup5(b: string, u: string, s: string, w: string, a: string)
    ensures b + (u + s + w) + a == (b + u) + s + (w + a)
  {
  }

  lemma InsertAtWellFormed(L: seq<string>, p: Pos, s: string)
    requires WellFormed(L) && ValidPos(L, p)
    ensures WellFormed(InsertAt(L, p, s))
  {
    var k := p.line - 1;
    var P := Split(s);
    var W := Wrap(P, L[k][..p.col], L[k][p.col..]);
    forall j | 0 <= j < |W| ensures NoNewline(W[j]) {
      assert NoNewline(P[j]);
    }
    var R := InsertAt(L, p, s);
    forall j | 0 <= j < |R| ensures NoNewline(R[j]) {
      if j < k {
        assert R[j] == L[j];
      } else if j < k + |W| {
        assert R[j] == W[j - k];
      } else {
        assert R[j] == L[j - |W| + 1];
      }
    }
  }

  /** Inserting text without a newline changes only the line of `p`. */
  lemma InsertAtInLine(L: seq<string>, p: Pos, s: string)
    requires ValidPos(L, p) && NoNewline(s)
    ensures InsertAt(L, p, s) == L[p.line - 1 := L[p.line - 1][..p.col] + s + L[p.line - 1][p.col..]]
  {
    SplitNoNewline(s);
  }

  /** Tk's `delete(a, b)` removes exactly the flat text between the two indices. */
  lemma JoinDeleteRange(L: seq<string>, a: Pos, b: Pos)
    requires |L| >= 1 && ValidPos(L, a) && ValidPos(L, b) && PosLe(a, b)
    ensures |DeleteRange(L, a, b)| >= 1
    ensures Offset(L, a) <= Offset(L, b) <= |Join(L)|
    ensures Join(DeleteRange(L, a, b)) == Join(L)[..Offset(L, a)] + Join(L)[Offset(L, b)..]
    ensures |Join(DeleteRange(L, a, b))| == |Join(L)| - (Offset(L, b) - Offset(L, a))
  {
    OffsetMonotone(L, a, b);
    JoinAtPos(L, a);
    JoinAtPos(L, b);
    var ka, kb := a.line - 1, b.line - 1;
    JoinDeleteRangeParts(L, a, b);
    SliceLengths(Join(L), Offset(L, a), Offset(L, b));
    Regroup(Join(DeleteRange(L, a, b)), Before(L, ka), L[ka][..a.col] + L[kb][b.col..], L[ka][..a.col], L[kb][b.col..], After(L, kb),
      Join(L)[..Offset(L, a)], Join(L)[Offset(L, b)..]);
  }

  /** The lines after `delete(a, b)`, flattened: the text before line `a`, the joined remnant line, the text after line `b`. */
  lemma JoinDeleteRangeParts(L: seq<string>, a: Pos, b: Pos)
    requires |L| >= 1 && ValidPos(L, a) && ValidPos(L, b) && PosLe(a, b)
    ensures |DeleteRange(L, a, b)| >= 1
    ensures Join(DeleteRange(L, a, b)) == Before(L, a.line - 1) + (L[a.line - 1][..a.col] + L[b.line - 1][b.col..]) + After(L, b.line - 1)
  {
    var x := L[a.line - 1][..a.col] + L[b.line - 1][b.col..];
    JoinReplaceLine(L, a.line - 1, b.line - 1, [x]);
    assert Join([x]) == x;
  }

  lemma Regroup(r: string, p: string, w: string, u: string, v: string, q: string, x: string, y: string)
    requires r == p + w + q && w == u + v && x == p + u && y == v + q
    ensures r == x + y
  {
  }

  lemma SliceLengths(J: string, i: nat, j: nat)
    requires i <= j <= |J|
    ensures |J[..i] + J[j..]| == |J| - (j - i)
  {
  }

  lemma DeleteRangeWellFormed(L: seq<string>, a: Pos, b: Pos)
    requires WellFormed(L) && ValidPos(L, a) && ValidPos(L, b) && PosLe(a, b)
    ensures WellFormed(DeleteRange(L, a, b))
  {
    var R := DeleteRange(L, a, b);
    var x := L[a.line - 1][..a.col] + L[b.line - 1][b.col..];
    assert NoNewline(L[a.line - 1]) && NoNewline(L[b.line - 1]);
    forall j | 0 <= j < |R| ensures NoNewline(R[j]) {
      if j < a.line - 1 {
        assert R[j] == L[j];
      } else if j == a.line - 1 {
        assert R[j] == x;
      } else {
        assert R[j] == L[j - a.line + b.line];
      }
    }
  }

  /** A deletion within one line changes only that line. */
  lemma DeleteInLine(L: seq<string>, l: nat, a: nat, b: nat)
    requires 1 <= l <= |L| && a <= b <= |L[l - 1]|
    ensures DeleteRange(L, Pos(l, a), Pos(l, b)) == L[l - 1 := L[l - 1][..a] + L[l - 1][b..]]
  {
  }

  //
  // Lemmas about single-line edits and the indices around them.
  //

  lemma {:induction false} SumLensSet(L: seq<string>, k: nat, x: string)
    requires k < |L|
    ensures SumLens(L[k := x]) == SumLens(L) - |L[k]| + |x|
    decreases |L|
  {
    var n := |L|;
    if k < n - 1 {
      assert L[k := x][..n - 1] == L[..n - 1][k := x];
      SumLensSet(L[..n - 1], k, x);
    } else {
      assert L[k := x][..n - 1] == L[..n - 1];
    }
  }

  /** Replacing line `k` shifts the flat positions of the later lines only. */
  lemma OffsetSetLine(L: seq<string>, k: nat, x: string, q: Pos)
    requires k < |L| && 1 <= q.line <= |L|
    ensures Offset(L[k := x], q) == if q.line - 1 > k then Offset(L, q) + |x| - |L[k]| else Offset(L, q)
  {
    var j := q.line - 1;
    if j > k {
      assert L[k := x][..j] == L[..j][k := x];
      SumLensSet(L[..j], k, x);
    } else {
      assert L[k := x][..j] == L[..j];
    }
  }

  /** The index a mark or tag boundary moves to when text without a newline is inserted at `p`. */
  function ShiftPosForInsert(p: Pos, n: nat, q: Pos, rightGravity: bool): Pos
  {
    if q.line == p.line && (q.col > p.col || (q.col == p.col && rightGravity)) then Pos(q.line, q.col + n) else q
  }

  /** Offset arithmetic for marks agrees with moving the index along its line. */
  lemma MarkAfterInLineInsert(L: seq<string>, p: Pos, s: string, q: Pos, rightGravity: bool)
    requires |L| >= 1 && ValidPos(L, p) && ValidPos(L, q) && NoNewline(s)
    ensures |InsertAt(L, p, s)| >= 1
    ensures Offset(L, q) <= |Join(L)| && Offset(L, p) <= |Join(L)|
    ensures |Join(InsertAt(L, p, s))| == |Join(L)| + |s|
    ensures ShiftForInsert(Offset(L, q), Offset(L, p), |s|, rightGravity) <= |Join(InsertAt(L, p, s))|
    ensures PosAt(InsertAt(L, p, s), ShiftForInsert(Offset(L, q), Offset(L, p), |s|, rightGravity))
            == ShiftPosForInsert(p, |s|, q, rightGravity)
  {
    OffsetBound(L, q);
    JoinInsertAt(L, p, s);
    InsertAtInLine(L, p, s);
    var k := p.line - 1;
    var L' := L[k := L[k][..p.col] + s + L[k][p.col..]];
    OffsetAfterInLineInsert(L, p, s, q, rightGravity);
    PosAtOfOffset(L', ShiftPosForInsert(p, |s|, q, rightGravity));
  }

  lemma OffsetAfterInLineInsert(L: seq<string>, p: Pos, s: string, q: Pos, rightGravity: bool)
    requires ValidPos(L, p) && ValidPos(L, q)
    ensures ValidPos(L[p.line - 1 := L[p.line - 1][..p.col] + s + L[p.line - 1][p.col..]], ShiftPosForInsert(p, |s|, q, rightGravity))
    ensures Offset(L[p.line - 1 := L[p.line - 1][..p.col] + s + L[p.line - 1][p.col..]], ShiftPosForInsert(p, |s|, q, rightGravity))
            == ShiftForInsert(Offset(L, q), Offset(L, p), |s|, rightGravity)
  {
    var k := p.line - 1;
    var x := L[k][..p.col] + s + L[k][p.col..];
    var r := ShiftPosForInsert(p, |s|, q, rightGravity);
    assert |x| == |L[k]| + |s|;
    OffsetSetLine(L, k, x, r);
    OffsetSetLine(L, k, x, q);
    if q.line < p.line {
      OffsetMonotone(L, q, p);
    } else if q.line > p.line {
      OffsetMonotone(L, p, q);
    }
  }

  /** The index a mark moves to when columns `[a, b)` of line `l` are deleted. */
  function ShiftPosForDelete(l: nat, a: nat, b: nat, q: Pos): Pos
    requires a <= b
  {
    if q.line != l then q
    else if q.col >= b then Pos(l, q.col - (b - a))
    else if q.col > a then Pos(l, a)
    else q
  }

  lemma MarkAfterInLineDelete(L: seq<string>, l: nat, a: nat, b: nat, q: Pos)
    requires 1 <= l <= |L| && a <= b <= |L[l - 1]| && ValidPos(L, q)
    ensures |DeleteRange(L, Pos(l, a), Pos(l, b))| >= 1
    ensures Offset(L, q) <= |Join(L)| && Offset(L, Pos(l, a)) <= Offset(L, Pos(l, b)) <= |Join(L)|
    ensures |Join(DeleteRange(L, Pos(l, a), Pos(l, b)))| == |Join(L)| - (Offset(L, Pos(l, b)) - Offset(L, Pos(l, a)))
    ensures ShiftForDelete(Offset(L, q), Offset(L, Pos(l, a)), Offset(L, Pos(l, b)))
              <= |Join(DeleteRange(L, Pos(l, a), Pos(l, b)))|
    ensures PosAt(DeleteRange(L, Pos(l, a), Pos(l, b)),
                  ShiftForDelete(Offset(L, q), Offset(L, Pos(l, a)), Offset(L, Pos(l, b))))
            == ShiftPosForDelete(l, a, b, q)
  {
    JoinDeleteRange(L, Pos(l, a), Pos(l, b));
    OffsetBound(L, q);
    DeleteInLine(L, l, a, b);
    var x := L[l - 1][..a] + L[l - 1][b..];
    var L' := L[l - 1 := x];
    var r := ShiftPosForDelete(l, a, b, q);
    OffsetAfterInLineDelete(L, l, a, b, q);
    PosAtOfOffset(L', r);
  }

  lemma OffsetAfterInLineDelete(L: seq<string>, l: nat, a: nat, b: nat, q: Pos)
    requires 1 <= l <= |L| && a <= b <= |L[l - 1]| && ValidPos(L, q)
    ensures ValidPos(L[l - 1 := L[l - 1][..a] + L[l - 1][b..]], ShiftPosForDelete(l, a, b, q))
    ensures Offset(L[l - 1 := L[l - 1][..a] + L[l - 1][b..]], ShiftPosForDelete(l, a, b, q))
            == ShiftForDelete(Offset(L, q), Offset(L, Pos(l, a)), Offset(L, Pos(l, b)))
  {
    var x := L[l - 1][..a] + L[l - 1][b..];
    var r := ShiftPosForDelete(l, a, b, q);
    OffsetSetLine(L, l - 1, x, r);
    OffsetSetLine(L, l - 1, x, q);
    var oa, ob := Offset(L, Pos(l, a)), Offset(L, Pos(l, b));
    assert ob == oa + (b - a);
    if q.line < l {
      OffsetMonotone(L, q, Pos(l, a));
    } else if q.line > l {
      OffsetMonotone(L, Pos(l, b), q);
    }
  }

  /** Tk's `get(p)` reads the flat text (with its final newline) at `p`'s flat position. */
  lemma CharAtFlat(L: seq<string>, p: Pos)
    requires ValidPos(L, p)
    ensures Offset(L, p) <= |Join(L)|
    ensures CharAt(L, p) == (Join(L) + "\n")[Offset(L, p)]
  {
    OffsetBound(L, p);
    JoinAt(L, p.line - 1);
    var J, B, x, A := Join(L), Before(L, p.line - 1), L[p.line - 1], After(L, p.line - 1);
    var o := Offset(L, p);
    OffsetInLine(L, p.line, p.col);
    if p.col < |x| {
      IndexInMiddle(J, B, x, A, p.col);
      IndexBeforeEnd(J, "\n", o);
    } else if p.line < |L| {
      assert A == "\n" + Join(L[p.line..]);
      IndexAfterMiddle(J, B, x, A);
      IndexBeforeEnd(J, "\n", o);
    }
  }

  /** An index into the first part of a concatenation. */
  lemma IndexBeforeEnd(J: string, v: string, i: nat)
    requires i < |J|
    ensures (J + v)[i] == J[i]
  {
  }

  /** A character of the middle part of a concatenation. */
  lemma IndexInMiddle(J: string, u: string, x: string, v: string, i: nat)
    requires J == u + x + v && i < |x|
    ensures |u| + i < |J| && J[|u| + i] == x[i]
  {
  }

  /** The character just after the middle part of a concatenation. */
  lemma IndexAfterMiddle(J: string, u: string, x: string, v: string)
    requires J == u + x + v && |v| > 0
    ensures |u| + |x| < |J| && J[|u| + |x|] == v[0]
  {
  }

  /** A slice of the middle part of a concatenation. */
  lemma SliceInMiddle(J: string, u: string, x: string, v: string, a: nat, b: nat)
    requires J == u + x + v && a <= b <= |x|
    ensures |u| + b <= |J| && J[|u| + a..|u| + b] == x[a..b]
  {
    var r := J[|u| + a..|u| + b];
    assert forall i | 0 <= i < b - a :: r[i] == x[a..b][i];
  }

  /** The flat text of line `l`, columns `[a, b)`. */
  lemma GetTextInLine(L: seq<string>, l: nat, a: nat, b: nat)
    requires 1 <= l <= |L| && a <= b <= |L[l - 1]|
    ensures GetText(L, Pos(l, a), Pos(l, b)) == L[l - 1][a..b]
  {
    SliceOfLine(L, l - 1, a, b);
  }

  lemma SliceOfLine(L: seq<string>, k: nat, a: nat, b: nat)
    requires k < |L| && a <= b <= |L[k]|
    ensures Offset(L, Pos(k + 1, a)) <= Offset(L, Pos(k + 1, b)) <= |Join(L)|
    ensures Join(L)[Offset(L, Pos(k + 1, a))..Offset(L, Pos(k + 1, b))] == L[k][a..b]
  {
    JoinAt(L, k);
    OffsetInLine(L, k + 1, a);
    OffsetInLine(L, k + 1, b);
    var u := Before(L, k);
    assert Offset(L, Pos(k + 1, a)) == |u| + a && Offset(L, Pos(k + 1, b)) == |u| + b;
    SliceInMiddle(Join(L), u, L[k], After(L, k), a, b);
  }

  /** The flat text from the start of `p`'s line up to `p`. */
  lemma GetTextToPos(L: seq<string>, p: Pos)
    requires ValidPos(L, p)
    ensures GetText(L, Pos(p.line, 0), p) == L[p.line - 1][..p.col]
  {
    GetTextInLine(L, p.line, 0, p.col);
    assert L[p.line - 1][0..p.col] == L[p.line - 1][..p.col];
  }

  /** Within a line, `MarkAfterInsert` moves the mark along its line. */
  lemma MarkAfterInsertInLine(L: seq<string>, p: Pos, s: string, q: Pos, rightGravity: bool)
    requires ValidPos(L, p) && ValidPos(L, q) && NoNewline(s)
    ensures MarkAfterInsert(L, p, s, q, rightGravity) == ShiftPosForInsert(p, |s|, q, rightGravity)
  {
    MarkAfterInLineInsert(L, p, s, q, rightGravity);
  }

  /** Within a line, `MarkAfterDelete` moves the mark along its line. */
  lemma MarkAfterDeleteInLine(L: seq<string>, l: nat, a: nat, b: nat, q: Pos)
    requires 1 <= l <= |L| && a <= b <= |L[l - 1]| && ValidPos(L, q)
    ensures MarkAfterDelete(L, Pos(l, a), Pos(l, b), q) == ShiftPosForDelete(l, a, b, q)
  {
    MarkAfterInLineDelete(L, l, a, b, q);
  }

  /** Deleting text just inserted on one line gives the lines back. */
  lemma DeleteInserted(L: seq<string>, p: Pos, s: string)
    requires ValidPos(L, p) && NoNewline(s)
    ensures ValidPos(InsertAt(L, p, s), p) && ValidPos(InsertAt(L, p, s), Pos(p.line, p.col + |s|))
    ensures DeleteRange(InsertAt(L, p, s), p, Pos(p.line, p.col + |s|)) == L
  {
    InsertAtInLine(L, p, s);
    var k := p.line - 1;
    var x := L[k][..p.col] + s + L[k][p.col..];
    assert x[..p.col] + x[p.col + |s|..] == L[k];
    DeleteInLine(L[k := x], p.line, p.col, p.col + |s|);
    assert L[k := x][k := L[k]] == L;
  }

  /** A deletion from `a` leaves the index `a`, and its flat position, in place. */
  lemma DeleteKeepsStart(L: seq<string>, a: Pos, b: Pos)
    requires ValidPos(L, a) && ValidPos(L, b) && PosLe(a, b)
    ensures ValidPos(DeleteRange(L, a, b), a) && Offset(DeleteRange(L, a, b), a) == Offset(L, a)
  {
    var R := DeleteRange(L, a, b);
    assert R[..a.line - 1] == L[..a.line - 1];
  }

  /** An insertion at `p` leaves the index `p`, and its flat position, in place. */
  lemma InsertKeepsStart(L: seq<string>, p: Pos, s: string)
    requires ValidPos(L, p)
    ensures ValidPos(InsertAt(L, p, s), p) && Offset(InsertAt(L, p, s), p) == Offset(L, p)
  {
    var k := p.line - 1;
    var P := Split(s);
    var W := Wrap(P, L[k][..p.col], L[k][p.col..]);
    var Q := P[0 := L[k][..p.col] + P[0]];
    assert |Q[0]| >= p.col;
    assert |W[0]| >= p.col;
    var R := InsertAt(L, p, s);
    assert R[k] == W[0];
    assert R[..k] == L[..k];
  }

  /** `1.0` is the only index at flat position 0, and `end-1c` the only one at the end of the text. */
  lemma OffsetExtremes(L: seq<string>, p: Pos)
    requires |L| >= 1 && ValidPos(L, p)
    ensures Offset(L, EndPos(L)) == |Join(L)|
    ensures Offset(L, p) == 0 <==> p == Pos(1, 0)
    ensures Offset(L, p) == |Join(L)| <==> p == EndPos(L)
  {
    assert L[..|L|] == L;
    SumLensStep(L, |L| - 1);
    LenJoin(L);
    OffsetOrder(L, p, EndPos(L));
  }

  /** Within a line, flat positions count columns. */
  lemma OffsetInLine(L: seq<string>, l: nat, c: nat)
    requires 1 <= l <= |L|
    ensures Offset(L, Pos(l, c)) == Offset(L, Pos(l, 0)) + c
  {
  }
}
