/**
 * Runs of whitespace and of word characters inside one line, as the word
 * jumps, delete-previous-word and the completion prefix scan them.  Each run
 * is given twice: as a recursive function whose contract says it is maximal,
 * and as the scanning loop of the editor, proved to stop where the function
 * says.
 */
module Words {
  import opened Chars

  /** The end of the run of whitespace that starts at `i`. */
  function SpaceRunEnd(s: string, i: nat): (r: nat)
    requires i <= |s|
    ensures i <= r <= |s|
    ensures forall k :: i <= k < r ==> IsSpace(s[k])
    ensures r == |s| || !IsSpace(s[r])
    decreases |s| - i
  {
    if i == |s| || !IsSpace(s[i]) then i else SpaceRunEnd(s, i + 1)
  }

  /** The end of the run of word characters that starts at `i`. */
  function WordRunEnd(s: string, i: nat): (r: nat)
    requires i <= |s|
    ensures i <= r <= |s|
    ensures forall k :: i <= k < r ==> IsWordChar(s[k])
    ensures r == |s| || !IsWordChar(s[r])
    decreases |s| - i
  {
    if i == |s| || !IsWordChar(s[i]) then i else WordRunEnd(s, i + 1)
  }

  /** The start of the run of whitespace that ends at `i`. */
  function SpaceRunStart(s: string, i: nat): (r: nat)
    requires i <= |s|
    ensures r <= i
    ensures forall k :: r <= k < i ==> IsSpace(s[k])
    ensures r == 0 || !IsSpace(s[r - 1])
  {
    if i == 0 || !IsSpace(s[i - 1]) then i else SpaceRunStart(s, i - 1)
  }

  /** The start of the run of word characters that ends at `i`. */
  function WordRunStart(s: string, i: nat): (r: nat)
    requires i <= |s|
    ensures r <= i
    ensures forall k :: r <= k < i ==> IsWordChar(s[k])
    ensures r == 0 || !IsWordChar(s[r - 1])
  {
    if i == 0 || !IsWordChar(s[i - 1]) then i else WordRunStart(s, i - 1)
  }

  predicate AllSpace(s: string, a: nat, b: nat)
    requires a <= b <= |s|
  {
    forall k :: a <= k < b ==> IsSpace(s[k])
  }

  predicate AllWord(s: string, a: nat, b: nat)
    requires a <= b <= |s|
  {
    forall k :: a <= k < b ==> IsWordChar(s[k])
  }

  /**
   * Where a rightward word jump over `chunk` (the rest of the line) stops:
   * after the blanks that start it, then after the word that follows them.
   */
  function RightStop(chunk: string): (i: nat)
    ensures i <= |chunk|
    ensures exists m | 0 <= m <= i ::
      (AllSpace(chunk, 0, m) && AllWord(chunk, m, i) &&
       (m == |chunk| || !IsSpace(chunk[m])) && (i == |chunk| || !IsWordChar(chunk[i])))
  {
    WordRunEnd(chunk, SpaceRunEnd(chunk, 0))
  }

  /** Where a leftward word jump over `chunk` (the line up to the cursor) stops: the mirror image. */
  function LeftStop(chunk: string): (i: nat)
    ensures i <= |chunk|
    ensures exists m | i <= m <= |chunk| ::
      (AllSpace(chunk, m, |chunk|) && AllWord(chunk, i, m) &&
       (m == 0 || !IsSpace(chunk[m - 1])) && (i == 0 || !IsWordChar(chunk[i - 1])))
  {
    var m := SpaceRunStart(chunk, |chunk|);
    assert AllSpace(chunk, m, |chunk|) && AllWord(chunk, WordRunStart(chunk, m), m);
    WordRunStart(chunk, m)
  }

  /** The completion prefix: the longest suffix of `s` made of word characters. */
  function WordSuffix(s: string): string
  {
    s[WordRunStart(s, |s|)..]
  }

  /** `WordSuffix` is the maximal word-character suffix: it ends the string, holds only word characters, and cannot be extended. */
  lemma WordSuffixMaximal(s: string)
    ensures EndsWith(s, WordSuffix(s))
    ensures forall k :: 0 <= k < |WordSuffix(s)| ==> IsWordChar(WordSuffix(s)[k])
    ensures |WordSuffix(s)| == |s| || !IsWordChar(s[|s| - |WordSuffix(s)| - 1])
  {
    var r := WordRunStart(s, |s|);
    assert WordSuffix(s) == s[r..];
    forall k | 0 <= k < |s| - r ensures IsWordChar(s[r..][k]) {
      assert s[r..][k] == s[r + k];
    }
  }

  /** Any suffix of word characters is a suffix of `WordSuffix`. */
  lemma WordSuffixLongest(s: string, t: string)
    requires EndsWith(s, t)
    requires forall k :: 0 <= k < |t| ==> IsWordChar(t[k])
    ensures |t| <= |WordSuffix(s)|
  {
  }

  /** The two `while` loops of the rightward jump. */
  method ScanRight(chunk: string) returns (i: nat)
    ensures i == RightStop(chunk)
  {
    i := 0;
    while i < |chunk| && IsSpace(chunk[i])
      invariant i <= |chunk|
      invariant SpaceRunEnd(chunk, i) == SpaceRunEnd(chunk, 0)
    {
      i := i + 1;
    }
    ghost var m := i;
    while i < |chunk| && IsWordChar(chunk[i])
      invariant m <= i <= |chunk|
      invariant WordRunEnd(chunk, i) == WordRunEnd(chunk, m)
    {
      i := i + 1;
    }
  }

  /** The two `while` loops of the leftward jump. */
  method ScanLeft(chunk: string) returns (i: nat)
    ensures i == LeftStop(chunk)
  {
    i := |chunk|;
    while i > 0 && IsSpace(chunk[i - 1])
      invariant i <= |chunk|
      invariant SpaceRunStart(chunk, i) == SpaceRunStart(chunk, |chunk|)
    {
      i := i - 1;
    }
    ghost var m := i;
    while i > 0 && IsWordChar(chunk[i - 1])
      invariant i <= m
      invariant WordRunStart(chunk, i) == WordRunStart(chunk, m)
    {
      i := i - 1;
    }
  }

  /** The `word_start` loop of delete-previous-word. */
  method FindWordStart(line: string) returns (start: nat)
    ensures start == WordRunStart(line, |line|)
  {
    start := |line|;
    while start > 0 && IsWordChar(line[start - 1])
      invariant start <= |line|
      invariant WordRunStart(line, start) == WordRunStart(line, |line|)
    {
      start := start - 1;
    }
  }

  /** The loop that builds the completion prefix one character at a time, walking the line backwards. */
  method ExtractPrefix(line: string) returns (prefix: string)
    ensures prefix == WordSuffix(line)
  {
    prefix := "";
    var k: nat := |line|;
    while k > 0
      invariant k <= |line|
      invariant prefix == line[k..]
      invariant forall j :: k <= j < |line| ==> IsWordChar(line[j])
      invariant WordRunStart(line, k) == WordRunStart(line, |line|)
    {
      var c := line[k - 1];
      if !IsWordChar(c) {
        break;
      }
      prefix := [c] + prefix;
      k := k - 1;
    }
  }
}
