/**
 * Tab bookkeeping of the editor window: the character-by-character restore
 * of a tab's code, the ids and labels of new tabs, and the table of saved
 * code, which is an SQLite table in the program and a list of rows here.
 */
module TabsStore {
  import opened Wrappers

  /** The decimal digit character of `d`. */
  function DigitChar(d: nat): (c: char)
    requires d < 10
    ensures '0' <= c <= '9'
  {
    ('0' as int + d) as char
  }

  /** `str(n)` for a natural number. */
  function Decimal(n: nat): (r: string)
    ensures |r| >= 1
    ensures forall k | 0 <= k < |r| :: '0' <= r[k] <= '9'
    ensures r[0] == '0' ==> n == 0
  {
    if n < 10 then [DigitChar(n)] else Decimal(n / 10) + [DigitChar(n % 10)]
  }

  /** The number a string of digits denotes. */
  function DigitsValue(s: string): nat
    requires forall k | 0 <= k < |s| :: '0' <= s[k] <= '9'
  {
    if s == [] then 0 else DigitsValue(s[..|s| - 1]) * 10 + (s[|s| - 1] as int - '0' as int)
  }

  /** Reading back the digits of `str(n)` gives `n`. */
  lemma {:induction false} DecimalRoundTrip(n: nat)
    ensures DigitsValue(Decimal(n)) == n
  {
    if n >= 10 {
      var r := Decimal(n);
      assert r[..|r| - 1] == Decimal(n / 10);
      DecimalRoundTrip(n / 10);
    }
  }

  /** `s.split(c)[-1]`: what follows the last `c`, or all of `s` when there is none. */
  function AfterLast(s: string, c: char): (r: string)
    ensures c !in r
    ensures |r| <= |s| && s[|s| - |r|..] == r
    ensures |r| < |s| ==> s[|s| - |r| - 1] == c
  {
    if s == [] then []
    else if s[|s| - 1] == c then []
    else AfterLast(s[..|s| - 1], c) + [s[|s| - 1]]
  }

  /** A row of the `codes` table. */
  datatype Row = Row(id: nat, tabId: string, timestamp: string, code: string)

  /** `SELECT MAX(id) FROM codes`: `None` (SQL `NULL`) on an empty table. */
  function MaxId(rows: seq<Row>): (r: Option<nat>)
    ensures r.None? <==> rows == []
    ensures r.Some? ==> (exists k | 0 <= k < |rows| :: rows[k].id == r.value)
    ensures r.Some? ==> forall k | 0 <= k < |rows| :: rows[k].id <= r.value
  {
    if rows == [] then None
    else
      var m := MaxId(rows[..|rows| - 1]);
      if m.None? || m.value < rows[|rows| - 1].id then Some(rows[|rows| - 1].id) else m
  }

  /** The number of the next tab: one more than the highest row id, 1 on an empty table. */
  function NextTabNumber(rows: seq<Row>): (r: nat)
    ensures r >= 1
    ensures forall k | 0 <= k < |rows| :: rows[k].id < r
    ensures rows == [] ==> r == 1
    ensures rows != [] ==> exists k | 0 <= k < |rows| :: rows[k].id == r - 1
  {
    (if MaxId(rows).Some? then MaxId(rows).value else 0) + 1
  }

  /** The id `open_new_tab` gives a tab opened without one. */
  function NextTabId(rows: seq<Row>): string
  {
    "tab_" + Decimal(NextTabNumber(rows))
  }

  /** The label of a tab opened with `tabId`; a missing or empty id gets a new one. */
  function TabLabel(tabId: Option<string>, rows: seq<Row>): string
  {
    if tabId.None? || tabId.value == "" then "Editor " + Decimal(NextTabNumber(rows))
    else "Editor " + AfterLast(tabId.value, '_')
  }

  /**
   * A new tab's id ends in its number: reopening the tab under that id gives
   * the same label, whatever the table holds then, and what follows the
   * id's last underscore is the decimal form of the tab's number (which
   * `DecimalRoundTrip` reads back).
   */
  lemma NewTabIdLabel(rows: seq<Row>, later: seq<Row>)
    ensures TabLabel(Some(NextTabId(rows)), later) == TabLabel(None, rows)
    ensures AfterLast(NextTabId(rows), '_') == Decimal(NextTabNumber(rows))
  {
    LabelOfNumber(NextTabNumber(rows), later);
    NewTabIdTail(NextTabNumber(rows));
  }

  lemma LabelOfNumber(n: nat, later: seq<Row>)
    ensures TabLabel(Some("tab_" + Decimal(n)), later) == "Editor " + Decimal(n)
  {
    NewTabIdTail(n);
  }

  /** The part of `"tab_" + str(n)` after its last underscore is `str(n)`. */
  lemma NewTabIdTail(n: nat)
    ensures AfterLast("tab_" + Decimal(n), '_') == Decimal(n)
  {
    var d := Decimal(n);
    assert '_' !in d by {
      assert forall k | 0 <= k < |d| :: '0' <= d[k] <= '9';
    }
    AfterLastDigits("tab", d);
    assert "tab" + "_" + d == "tab_" + d;
  }

  /** Splitting `p + "_" + d` at its last underscore gives `d` when `d` has no underscore. */
  lemma {:induction false} AfterLastDigits(p: string, d: string)
    requires '_' !in d
    ensures AfterLast(p + "_" + d, '_') == d
    decreases |d|
  {
    var s := p + "_" + d;
    if d == [] {
      assert s[|s| - 1] == '_';
    } else {
      var d' := d[..|d| - 1];
      assert s[..|s| - 1] == p + "_" + d';
      assert s[|s| - 1] == d[|d| - 1];
      assert d[|d| - 1] in d;
      AfterLastDigits(p, d');
      assert d' + [d[|d| - 1]] == d;
    }
  }

  /**
   * The `codes` table.  `lastId` is the highest id the table has ever given
   * out, which AUTOINCREMENT never reuses.
   */
  class CodeStore {
    var rows: seq<Row>
    var lastId: nat

    /** The primary key: ids are distinct and none is above `lastId`. */
    predicate Valid()
      reads this
    {
      (forall k | 0 <= k < |rows| :: rows[k].id <= lastId) &&
      forall i, j | 0 <= i < j < |rows| :: rows[i].id != rows[j].id
    }

    /** `init_db` on a new database. */
    constructor ()
      ensures Valid() && rows == [] && lastId == 0
    {
      rows := [];
      lastId := 0;
    }

    /** `SELECT id FROM codes WHERE tab_id = ? ORDER BY id DESC LIMIT 1`, as an index into `rows`. */
    method NewestWithTab(tabId: string) returns (r: Option<nat>)
      ensures r.None? <==> forall k | 0 <= k < |rows| :: rows[k].tabId != tabId
      ensures r.Some? ==> r.value < |rows| && rows[r.value].tabId == tabId
      ensures r.Some? ==> forall k | 0 <= k < |rows| && rows[k].tabId == tabId :: rows[k].id <= rows[r.value].id
    {
      r := None;
      for i := 0 to |rows|
        invariant r.None? <==> forall k | 0 <= k < i :: rows[k].tabId != tabId
        invariant r.Some? ==> r.value < i && rows[r.value].tabId == tabId
        invariant r.Some? ==> forall k | 0 <= k < i && rows[k].tabId == tabId :: rows[k].id <= rows[r.value].id
      {
        if rows[i].tabId == tabId && (r.None? || rows[r.value].id < rows[i].id) {
          r := Some(i);
        }
      }
    }

    /**
     * `upsert_code`: the newest row of the tab gets the code and the time
     * `now`; a tab without a row gets one new row whose id is above every id
     * in the table.
     */
    method Upsert(tabId: string, code: string, now: string)
      requires Valid()
      modifies this
      ensures Valid()
      ensures (exists k | 0 <= k < |old(rows)| :: old(rows)[k].tabId == tabId) ==>
        lastId == old(lastId) && |rows| == |old(rows)| &&
        exists k | 0 <= k < |old(rows)| ::
          old(rows)[k].tabId == tabId &&
          (forall j | 0 <= j < |old(rows)| && old(rows)[j].tabId == tabId :: old(rows)[j].id <= old(rows)[k].id) &&
          rows == old(rows)[k := old(rows)[k].(timestamp := now, code := code)]
      ensures (forall k | 0 <= k < |old(rows)| :: old(rows)[k].tabId != tabId) ==>
        rows == old(rows) + [Row(old(lastId) + 1, tabId, now, code)] && lastId == old(lastId) + 1 &&
        forall k | 0 <= k < |old(rows)| :: old(rows)[k].id < rows[|rows| - 1].id
    {
      var existing := NewestWithTab(tabId);
      if existing.Some? {
        var k := existing.value;
        rows := rows[k := rows[k].(timestamp := now, code := code)];
      } else {
        lastId := lastId + 1;
        rows := rows + [Row(lastId, tabId, now, code)];
      }
    }

    /** `get_last_code`: the code of the row with the highest id, `""` on an empty table. */
    method GetLastCode() returns (r: string)
      ensures rows == [] ==> r == ""
      ensures rows != [] ==> exists k | 0 <= k < |rows| ::
        rows[k].code == r && forall j | 0 <= j < |rows| :: rows[j].id <= rows[k].id
    {
      if rows == [] {
        return "";
      }
      var best := 0;
      for i := 1 to |rows|
        invariant best < |rows| && forall j | 0 <= j < i :: rows[j].id <= rows[best].id
      {
        if rows[best].id < rows[i].id {
          best := i;
        }
      }
      r := rows[best].code;
    }

    /** The id a tab opened without one gets from this table. */
    method NewTabId() returns (r: string)
      ensures r == NextTabId(rows)
    {
      var m := MaxId(rows);
      var lastRowId := if m.Some? then m.value else 0;
      r := "tab_" + Decimal(lastRowId + 1);
    }
  }

  /**
   * A tab's text widget with the attributes of an animated restore:
   * `fullCode` is `None` when the tab was not opened animated (the attribute
   * is absent), `text` is the widget's content without Tk's final newline.
   */
  class RestoreText {
    var text: string
    var fullCode: Option<string>
    var charIndex: nat

    /** The restore is on course: the text is the part of the code shown so far. */
    predicate Restoring()
      reads this
    {
      fullCode.Some? && charIndex <= |fullCode.value| && text == fullCode.value[..charIndex]
    }

    /** A tab opened with `animated=True`: the text starts empty. */
    constructor Animated(code: string)
      ensures text == "" && fullCode == Some(code) && charIndex == 0
      ensures Restoring()
    {
      text := "";
      fullCode := Some(code);
      charIndex := 0;
    }

    /** A tab opened normally: the code is inserted at once. */
    constructor Plain(code: string)
      ensures text == code && fullCode.None? && charIndex == 0
    {
      text := code;
      fullCode := None;
      charIndex := 0;
    }

    /** `restore_next_char`: one more character of the code goes at the end, unless there is nothing to restore. */
    method RestoreNextChar()
      modifies this
      ensures fullCode == old(fullCode)
      ensures old(fullCode).None? || old(charIndex) >= |old(fullCode).value| ==>
        text == old(text) && charIndex == old(charIndex)
      ensures old(fullCode).Some? && old(charIndex) < |old(fullCode).value| ==>
        text == old(text) + [old(fullCode).value[old(charIndex)]] && charIndex == old(charIndex) + 1
      ensures old(Restoring()) ==> Restoring()
    {
      if fullCode.None? || charIndex >= |fullCode.value| {
        return;
      }
      var next := fullCode.value[charIndex];
      assert fullCode.value[..charIndex + 1] == fullCode.value[..charIndex] + [next];
      text := text + [next];
      charIndex := charIndex + 1;
    }

    /** `k` presses of Control-0 on a freshly opened animated tab show the first `k` characters of the code. */
    method ReplayPresses(k: nat)
      requires fullCode.Some? && charIndex == 0 && text == ""
      modifies this
      ensures fullCode == old(fullCode)
      ensures text == fullCode.value[..if k < |fullCode.value| then k else |fullCode.value|]
      ensures charIndex == if k < |fullCode.value| then k else |fullCode.value|
    {
      for i := 0 to k
        invariant fullCode == old(fullCode) && Restoring()
        invariant charIndex == if i < |fullCode.value| then i else |fullCode.value|
      {
        RestoreNextChar();
      }
    }
  }
}
