/**
 * The run and check pipeline of the editor application: preparing the
 * buffer's text before a run, truncating the captured output, choosing the
 * line to mark after a failed run, the marker spans of the error check, and
 * the `process` field that `execute` and `stop_code` update.
 *
 * The child process, the temporary script file, the worker thread and the
 * dialogs are outside the model: what they produce (the captured streams,
 * the exit code, the traceback of the in-process re-run, the user's answer)
 * comes in as parameters.
 */
module RunPipeline {
  import opened Wrappers
  import opened Chars
  import opened NameCheck

  /** `MAX_OUTPUT_CHARS`. */
  const MaxOutputChars: nat := 2000
  const TruncationNotice: string := "\n... (output truncated)"

  /** The captured output as logged: at most `MaxOutputChars` characters, then the notice when something was cut. */
  function Trimmed(out: string): (r: string)
  {
    if |out| > MaxOutputChars then out[..MaxOutputChars] + TruncationNotice else out
  }

  /** The log starts with the output (or its first 2000 characters), and the notice follows exactly when the output was longer. */
  lemma TrimmedSpec(out: string)
    ensures |out| <= MaxOutputChars ==> Trimmed(out) == out
    ensures |out| > MaxOutputChars ==>
      |Trimmed(out)| == MaxOutputChars + |TruncationNotice| &&
      Trimmed(out)[..MaxOutputChars] == out[..MaxOutputChars] &&
      EndsWith(Trimmed(out), TruncationNotice)
    ensures |Trimmed(out)| <= MaxOutputChars + |TruncationNotice|
  {
    if |out| > MaxOutputChars {
      var r := Trimmed(out);
      assert r[|r| - |TruncationNotice|..] == TruncationNotice;
    }
  }

  /** `code.replace('\t', '    ')`. */
  function ReplaceTabs(s: string): (r: string)
    ensures '\t' !in r
    ensures '\t' !in s ==> r == s
  {
    if s == [] then [] else (if s[0] == '\t' then "    " else [s[0]]) + ReplaceTabs(s[1..])
  }

  /** Replacing tabs works character by character: it distributes over concatenation. */
  lemma {:induction false} ReplaceTabsAppend(a: string, b: string)
    ensures ReplaceTabs(a + b) == ReplaceTabs(a) + ReplaceTabs(b)
  {
    if a == [] {
      assert a + b == b;
    } else {
      assert (a + b)[1..] == a[1..] + b;
      ReplaceTabsAppend(a[1..], b);
    }
  }

  /** A tab becomes four spaces; every other character stays. */
  lemma ReplaceTabsChar(c: char)
    ensures ReplaceTabs([c]) == if c == '\t' then "    " else [c]
  {
    assert [c][1..] == [];
  }

  /** Each tab adds three characters. */
  lemma {:induction false} ReplaceTabsLength(s: string)
    ensures |ReplaceTabs(s)| == |s| + 3 * multiset(s)['\t']
  {
    if s != [] {
      ReplaceTabsLength(s[1..]);
      assert s == [s[0]] + s[1..];
      assert multiset(s) == multiset([s[0]]) + multiset(s[1..]);
    }
  }

  /** The definition of `input` put in front of programs that read input: a comment banner and an import, the `def` line, its body and a closing banner. */
  const InputShim: string := ShimHead + ShimDef + ShimTail
  const ShimHead: string :=
    "# ### Auto generated code. #######\n" +
    "# ### Do not remove! #############\n" +
    "from tkinter.simpledialog import askstring\n"
  const ShimDef: string := "def input(prompt=''):\n"
  const ShimTail: string :=
    "    return askstring('Input', " + "prompt or 'Enter value:')\n" +
    "##################################\n"

  /** The regular expression `\binput\s*\(` matches at `i`. */
  predicate InputCallAt(s: string, i: int)
  {
    OccursAt(s, "input", i) && (i == 0 || !IsWordChar(s[i - 1])) &&
    exists j | i + 5 <= j < |s| :: s[j] == '(' && forall m | i + 5 <= m < j :: IsSpace(s[m])
  }

  /** `re.search(r'\binput\s*\(', s)` finds a match. */
  predicate CallsInput(s: string)
  {
    exists i | 0 <= i < |s| :: InputCallAt(s, i)
  }

  /** The run prepends the shim when the code calls `input` and does not define it. */
  predicate NeedsShim(code: string)
  {
    CallsInput(code) && !Contains(code, "def input(")
  }

  /** The text the run executes, and the buffer text afterwards as `text.get("1.0", "end")` returns it. */
  datatype Prepared = Prepared(code: string, widget: string)

  /**
   * The preprocessing of `run_code` on the buffer text `w`.  When the code
   * has tabs, the buffer is cleared and the replaced code inserted; a Tk text
   * keeps its own final newline, so the buffer then ends in one newline more
   * than the code.  The shim goes in front of the buffer, and the code is
   * read back from it.
   */
  function Prepare(w: string): (r: Prepared)
  {
    var code1 := if '\t' in w then ReplaceTabs(w) else w;
    var widget1 := if '\t' in w then code1 + "\n" else w;
    if NeedsShim(code1) then Prepared(InputShim + widget1, InputShim + widget1)
    else Prepared(code1, widget1)
  }

  lemma ShimDefinesInput(x: string)
    ensures Contains(InputShim + x, "def input(")
    ensures '\t' !in InputShim
  {
    assert ShimDef[..10] == "def input(";
    OccursAfterPrefix(ShimHead, ShimDef, ShimTail + x, "def input(");
    assert InputShim + x == ShimHead + ShimDef + (ShimTail + x);
    ShimHasNoTab();
  }

  /** A needle that starts `b` occurs in `a + b + c` right after `a`. */
  lemma OccursAfterPrefix(a: string, b: string, c: string, needle: string)
    requires |needle| <= |b| && b[..|needle|] == needle
    ensures Contains(a + b + c, needle)
  {
    var s := a + b + c;
    assert s[|a|..|a| + |needle|] == b[..|needle|];
    assert OccursAt(s, needle, |a|);
  }

  lemma ShimHasNoTab()
    ensures '\t' !in InputShim
  {
    BannerHasNoTab();
    ImportHasNoTab();
    BodyHasNoTab();
    assert '\t' !in ShimDef;
    assert '\t' !in "##################################\n";
  }

  lemma BannerHasNoTab()
    ensures '\t' !in "# ### Auto generated code. #######\n" + "# ### Do not remove! #############\n"
  {
    assert '\t' !in "# ### Auto generated code. #######\n";
    assert '\t' !in "# ### Do not remove! #############\n";
  }

  lemma ImportHasNoTab()
    ensures '\t' !in "from tkinter.simpledialog import askstring\n"
  {
  }

  lemma BodyHasNoTab()
    ensures '\t' !in "    return askstring('Input', " + "prompt or 'Enter value:')\n"
  {
    assert '\t' !in "    return askstring('Input', ";
    assert '\t' !in "prompt or 'Enter value:')\n";
  }

  /** A newline at the end creates neither a call of `input` nor a definition of it. */
  lemma NeedsShimNewline(c: string)
    ensures NeedsShim(c + "\n") ==> NeedsShim(c)
  {
    var s := c + "\n";
    if CallsInput(s) {
      var i :| 0 <= i < |s| && InputCallAt(s, i);
      var j :| i + 5 <= j < |s| && s[j] == '(' && forall m | i + 5 <= m < j :: IsSpace(s[m]);
      assert j < |c|;
      assert c[i..i + 5] == s[i..i + 5];
      assert forall m | i + 5 <= m < j :: IsSpace(c[m]) by {
        forall m | i + 5 <= m < j ensures IsSpace(c[m]) {
          assert c[m] == s[m];
        }
      }
      assert InputCallAt(c, i);
    }
    if Contains(c, "def input(") {
      var i :| 0 <= i <= |c| && OccursAt(c, "def input(", i);
      assert s[i..i + 10] == c[i..i + 10];
      assert OccursAt(s, "def input(", i);
    }
  }

  /**
   * What a run executes has no tab and needs no shim; the shim is added
   * exactly when the tab-free code calls `input` without defining it, and
   * then the code is the shim followed by the buffer.
   */
  lemma PrepareSpec(w: string)
    ensures var r := Prepare(w); var c := if '\t' in w then ReplaceTabs(w) else w;
      '\t' !in r.code && '\t' !in r.widget && !NeedsShim(r.code) &&
      (NeedsShim(c) ==> r.code == r.widget && StartsWith(r.code, InputShim)) &&
      (!NeedsShim(c) ==> r.code == c)
  {
    var code1 := if '\t' in w then ReplaceTabs(w) else w;
    var widget1 := if '\t' in w then code1 + "\n" else w;
    ShimDefinesInput(widget1);
    assert (InputShim + widget1)[..|InputShim|] == InputShim;
  }

  /** Running again changes nothing: the second preparation runs exactly what the buffer shows after the first. */
  lemma PrepareIdempotent(w: string)
    ensures var w1 := Prepare(w).widget; Prepare(w1) == Prepared(w1, w1)
  {
    var code1 := if '\t' in w then ReplaceTabs(w) else w;
    var widget1 := if '\t' in w then code1 + "\n" else w;
    ShimDefinesInput(widget1);
    if NeedsShim(code1) {
      assert !NeedsShim(InputShim + widget1);
    } else if '\t' in w {
      NeedsShimNewline(code1);
    }
  }

  /** A frame of the traceback of the in-process re-run. */
  datatype Frame = Frame(filename: string, lineno: int)

  /** The line of the last frame that belongs to the script, if any. */
  function LastScriptLine(frames: seq<Frame>, scriptPath: string): (r: Option<int>)
    ensures r.None? <==> forall k | 0 <= k < |frames| :: frames[k].filename != scriptPath
    ensures r.Some? ==> exists k | 0 <= k < |frames| ::
      frames[k].filename == scriptPath && frames[k].lineno == r.value &&
      forall j | k < j < |frames| :: frames[j].filename != scriptPath
  {
    if frames == [] then None
    else if frames[|frames| - 1].filename == scriptPath then Some(frames[|frames| - 1].lineno)
    else LastScriptLine(frames[..|frames| - 1], scriptPath)
  }

  /** The loop of `mark_error_line` over the reversed traceback. */
  method ErrorLine(frames: seq<Frame>, scriptPath: string) returns (r: Option<int>)
    ensures r == LastScriptLine(frames, scriptPath)
  {
    var i := |frames|;
    while i > 0
      invariant 0 <= i <= |frames|
      invariant LastScriptLine(frames, scriptPath) == LastScriptLine(frames[..i], scriptPath)
    {
      assert frames[..i][..i - 1] == frames[..i - 1];
      if frames[i - 1].filename == scriptPath {
        return Some(frames[i - 1].lineno);
      }
      i := i - 1;
    }
    return None;
  }

  /** The lines `mark_error_line` adds to the `exec_error` marker. */
  function MarkedLines(rerun: ReRun, scriptPath: string): set<int>
  {
    if rerun.Raised? && LastScriptLine(rerun.frames, scriptPath).Some? then {LastScriptLine(rerun.frames, scriptPath).value} else {}
  }

  /** A marker on one line between two columns. */
  datatype Span = Span(line: int, start: int, stop: int)

  /** The marker of a syntax error at a 1-based `offset`: the character before it, or column 0. */
  function SyntaxErrorSpan(lineno: int, offset: int): (r: Span)
    ensures r.line == lineno && r.stop == offset
    ensures offset >= 1 ==> r.stop - r.start == 1
    ensures offset < 1 ==> r.start == 0
  {
    Span(lineno, if offset - 1 > 0 then offset - 1 else 0, offset)
  }

  /** One marker per finding, covering exactly the characters of the reported name. */
  function NameSpans(errs: seq<Finding>): (r: seq<Span>)
    ensures |r| == |errs|
    ensures forall k | 0 <= k < |errs| ::
      r[k].line == errs[k].line && r[k].start == errs[k].col && r[k].stop - r[k].start == |errs[k].id|
  {
    seq(|errs|, k requires 0 <= k < |errs| => Span(errs[k].line, errs[k].col, errs[k].col + |errs[k].id|))
  }

  /** The result of `ast.parse`. */
  datatype Parse = SyntaxError(lineno: int, offset: int) | Parsed(tree: Node)

  /** The `syntax_error` markers after a check, its findings, and whether the run markers were cleared too. */
  datatype CheckOutcome = CheckOutcome(marks: seq<Span>, findings: seq<Finding>, cleared: bool)

  /** `check_errors`: the markers are replaced by the syntax error's, or by those of a fresh checker's findings. */
  function CheckErrors(p: Parse, B: set<string>): CheckOutcome
  {
    match p
    case SyntaxError(lineno, offset) => CheckOutcome([SyntaxErrorSpan(lineno, offset)], [], false)
    case Parsed(tree) =>
      var errs := Walk(tree, Checked({}, []), B).errors;
      CheckOutcome(if errs == [] then [] else NameSpans(errs), errs, errs == [])
  }

  /**
   * A syntax error gives exactly one marker and no name analysis; otherwise
   * there is one marker per finding, no finding names a builtin, and both
   * kinds of marker are cleared exactly when nothing was found.
   */
  lemma CheckErrorsSpec(p: Parse, B: set<string>)
    ensures var r := CheckErrors(p, B);
      (p.SyntaxError? ==> r.marks == [SyntaxErrorSpan(p.lineno, p.offset)] && r.findings == [] && !r.cleared) &&
      (p.Parsed? ==> (|r.marks| == |r.findings| && (r.cleared <==> r.findings == []) &&
        forall k | 0 <= k < |r.findings| :: r.findings[k].id !in B &&
          r.marks[k].start == r.findings[k].col && r.marks[k].stop - r.marks[k].start == |r.findings[k].id|))
  {
    if p.Parsed? {
      WalkGrows(p.tree, Checked({}, []), B);
    }
  }

  /** `check_errors` with the visitor object doing the walk. */
  method RunCheck(p: Parse, B: set<string>) returns (r: CheckOutcome)
    ensures r == CheckErrors(p, B)
  {
    match p
    case SyntaxError(lineno, offset) =>
      r := CheckOutcome([SyntaxErrorSpan(lineno, offset)], [], false);
    case Parsed(tree) =>
      var checker := new NameChecker(B);
      checker.Visit(tree);
      var errs := checker.errors;
      r := CheckOutcome(if errs == [] then [] else NameSpans(errs), errs, errs == []);
  }

  /** What the in-process re-run of `mark_error_line` did. */
  datatype ReRun =
    | NoException
      /** It raised; `missing` is the module name of a `ModuleNotFoundError`. */
    | Raised(frames: seq<Frame>, missing: Option<string>, message: string)

  const StopNotice: string := "\n[!] Code execution forcibly stopped.\n"
  /** What `str(e)` says when `execute` reads the return code of a process `stop_code` has already dropped. */
  const NoProcessMessage: string := "'NoneType' object has no attribute 'returncode'"

  /**
   * The application's run state: whether `process` holds a process, whether
   * the run button is enabled, the text of the active output pane and the
   * lines carrying the `exec_error` marker.
   */
  class App {
    var hasProcess: bool
    var runEnabled: bool
    var output: string
    var errorLines: set<int>

    constructor ()
      ensures !hasProcess && runEnabled && output == "" && errorLines == {}
    {
      hasProcess := false;
      runEnabled := true;
      output := "";
      errorLines := {};
    }

    /** The start of `run_code`: the button is disabled, the output and the run markers are cleared. */
    method BeginRun()
      modifies this
      ensures !runEnabled && output == "" && errorLines == {} && hasProcess == old(hasProcess)
    {
      runEnabled := false;
      output := "";
      errorLines := {};
    }

    /** `stop_code`, with `running` the answer of `poll() is None`. */
    method StopCode(running: bool)
      modifies this
      ensures runEnabled
      ensures old(hasProcess) && running ==> !hasProcess && output == old(output) + StopNotice
      ensures !(old(hasProcess) && running) ==> hasProcess == old(hasProcess) && output == old(output)
      ensures errorLines == old(errorLines)
    {
      if hasProcess && running {
        output := output + StopNotice;
        hasProcess := false;
      }
      runEnabled := true;
    }

    /** The start of `execute`: on success `process` holds the child; on failure the error is logged and the `finally` block runs. */
    method Launch(ok: bool, error: string)
      modifies this
      ensures ok ==> hasProcess && runEnabled == old(runEnabled) && output == old(output)
      ensures !ok ==> !hasProcess && runEnabled && output == old(output) + "Execution error: " + error + "\n"
      ensures errorLines == old(errorLines)
    {
      if ok {
        hasProcess := true;
      } else {
        output := output + "Execution error: " + error + "\n";
        hasProcess := false;
        runEnabled := true;
      }
    }

    /**
     * The rest of `execute` once the child has finished: the trimmed output
     * is logged; a failed run marks its error line; the `finally` block drops
     * the process and re-enables the button.  When `stop_code` ran in the
     * meantime, reading the return code fails and that error is logged.
     */
    method Finish(stdout: string, stderr: string, returncode: int, rerun: ReRun, scriptPath: string, installConfirmed: bool)
      modifies this
      ensures !hasProcess && runEnabled
      ensures StartsWith(output, old(output) + Trimmed(stdout + stderr))
      ensures !old(hasProcess) ==>
        output == old(output) + Trimmed(stdout + stderr) + "Execution error: " + NoProcessMessage + "\n" && errorLines == old(errorLines)
      ensures old(hasProcess) && (returncode == 0 || rerun.NoException?) ==>
        output == old(output) + Trimmed(stdout + stderr) && errorLines == old(errorLines)
      ensures old(hasProcess) && returncode != 0 ==> errorLines == old(errorLines) + MarkedLines(rerun, scriptPath)
      ensures old(hasProcess) && returncode != 0 && rerun.Raised? && rerun.missing.None? ==>
        output == old(output) + Trimmed(stdout + stderr) + "Execution error: " + rerun.message + "\n"
      ensures old(hasProcess) && returncode != 0 && rerun.Raised? && rerun.missing.Some? && !installConfirmed ==>
        output == old(output) + Trimmed(stdout + stderr) + "Missing module: " + rerun.missing.value + "\n"
      ensures old(hasProcess) && returncode != 0 && rerun.Raised? && rerun.missing.Some? && installConfirmed ==>
        output == old(output) + Trimmed(stdout + stderr)
    {
      var before := output + Trimmed(stdout + stderr);
      output := before;
      if !hasProcess {
        output := output + "Execution error: " + NoProcessMessage + "\n";
      } else if returncode != 0 {
        MarkErrorLine(rerun, scriptPath, installConfirmed);
      }
      assert output[..|before|] == before;
      hasProcess := false;
      runEnabled := true;
    }

    /** `mark_error_line` given the outcome of the re-run and the user's answer to the install question. */
    method MarkErrorLine(rerun: ReRun, scriptPath: string, installConfirmed: bool)
      modifies this
      ensures hasProcess == old(hasProcess) && runEnabled == old(runEnabled)
      ensures errorLines == old(errorLines) + MarkedLines(rerun, scriptPath)
      ensures rerun.NoException? ==> output == old(output)
      ensures rerun.Raised? && rerun.missing.None? ==> output == old(output) + "Execution error: " + rerun.message + "\n"
      ensures rerun.Raised? && rerun.missing.Some? && !installConfirmed ==> output == old(output) + "Missing module: " + rerun.missing.value + "\n"
      ensures rerun.Raised? && rerun.missing.Some? && installConfirmed ==> output == old(output)
      ensures StartsWith(output, old(output))
    {
      if rerun.Raised? {
        var line := ErrorLine(rerun.frames, scriptPath);
        if line.Some? {
          errorLines := errorLines + {line.value};
        }
        if rerun.missing.None? {
          output := output + "Execution error: " + rerun.message + "\n";
        } else if !installConfirmed {
          output := output + "Missing module: " + rerun.missing.value + "\n";
        }
      }
    }
  }
}
