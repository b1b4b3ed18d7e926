/**
 * The logic of the editor window (`ScriptEditorView`) that is not layout:
 * jumping to a (line, column) of the script when an output annotation is
 * clicked, the state the run button drives, the message shown when a run
 * cannot start, and how the exit code is displayed.
 */
module ScriptEditorView {
  import opened Wrappers
  import opened TextOps

  // ---------------------------------------------------------------------
  // Click navigation
  // ---------------------------------------------------------------------

  /** `value.coerceIn(lo, hi)` for a non-empty range. */
  function CoerceIn(value: int, lo: int, hi: int): (r: int)
    requires lo <= hi
    ensures lo <= r <= hi
    ensures lo <= value <= hi ==> r == value
    ensures value < lo ==> r == lo
    ensures value > hi ==> r == hi
  {
    if value < lo then lo else if value > hi then hi else value
  }

  /** The line a click targets: the requested line, clamped to the script's lines. */
  function TargetLine(script: string, line: int): (r: nat)
    ensures r < |SplitLines(script)|
  {
    CoerceIn(line, 0, |SplitLines(script)| - 1)
  }

  /** The column a click targets: the requested position, clamped to the target line. */
  function TargetPosition(script: string, line: int, position: int): (r: nat)
    ensures r <= |SplitLines(script)[TargetLine(script, line)]|
  {
    CoerceIn(position, 0, |SplitLines(script)[TargetLine(script, line)]|)
  }

  /**
   * The flat cursor index for a click on (line, position): the lengths of
   * the lines before the target line, each with its newline, plus the
   * column. It always lies inside the script.
   */
  function CursorIndex(script: string, line: int, position: int): (r: nat)
    ensures r <= |script|
  {
    var lines := SplitLines(script);
    var targetLine := TargetLine(script, line);
    CursorInScript(lines, targetLine, TargetPosition(script, line, position));
    JoinSplitLines(script);
    LineStart(lines, targetLine) + TargetPosition(script, line, position)
  }

  /** A column of a line lies inside the joined text. */
  lemma CursorInScript(ls: seq<string>, k: nat, column: nat)
    requires k < |ls| && column <= |ls[k]|
    ensures LineStart(ls, k) + column <= |Join(ls)|
  {
    LineStartInJoin(ls, k);
  }

  /** The number of newlines in a text. */
  function NewlineCount(s: string): nat {
    if s == [] then 0 else NewlineCount(s[..|s| - 1]) + (if s[|s| - 1] == '\n' then 1 else 0)
  }

  /** Newlines of two texts add up. */
  lemma {:induction false} NewlineCountAppend(a: string, b: string)
    ensures NewlineCount(a + b) == NewlineCount(a) + NewlineCount(b)
    decreases |b|
  {
    if b != [] {
      var b' := b[..|b| - 1];
      NewlineCountAppend(a, b');
      assert (a + b)[..|a + b| - 1] == a + b';
    } else {
      assert a + b == a;
    }
  }

  /** The newlines before `j` are those before `i` plus those between `i` and `j`. */
  lemma NewlineCountSplit(text: string, i: nat, j: nat)
    requires i <= j <= |text|
    ensures NewlineCount(text[..j]) == NewlineCount(text[..i]) + NewlineCount(text[i..j])
  {
    assert text[..j] == text[..i] + text[i..j];
    NewlineCountAppend(text[..i], text[i..j]);
  }

  /** A text without '\n' has no newlines to count. */
  lemma {:induction false} NewlineCountOfLine(s: string)
    requires '\n' !in s
    ensures NewlineCount(s) == 0
    decreases |s|
  {
    if s != [] {
      var s' := s[..|s| - 1];
      assert '\n' !in s' by {
        forall i | 0 <= i < |s'| ensures s'[i] != '\n' { assert s'[i] == s[i]; }
      }
      NewlineCountOfLine(s');
    }
  }

  /** Joining `k` newline-free lines puts `k - 1` newlines between them. */
  lemma {:induction false} NewlineCountJoin(ls: seq<string>, k: nat)
    requires 1 <= k <= |ls|
    requires forall j :: 0 <= j < |ls| ==> '\n' !in ls[j]
    ensures NewlineCount(Join(ls[..k])) == k - 1
  {
    if k == 1 {
      assert ls[..1] == [ls[0]];
      NewlineCountOfLine(ls[0]);
    } else {
      JoinStep(ls, k - 1);
      NewlineCountJoin(ls, k - 1);
      NewlineCountAppend(Join(ls[..k - 1]) + "\n", ls[k - 1]);
      NewlineCountAppend(Join(ls[..k - 1]), "\n");
      NewlineCountOfLine(ls[k - 1]);
      assert NewlineCount("\n") == 1 by {
        assert "\n"[..0] == [];
      }
    }
  }

  /** The text before line `k` of the joined lines is the first `k` lines, each with its newline. */
  lemma NewlinesBeforeLine(ls: seq<string>, k: nat)
    requires k < |ls|
    requires forall j :: 0 <= j < |ls| ==> '\n' !in ls[j]
    ensures LineStart(ls, k) <= |Join(ls)|
    ensures NewlineCount(Join(ls)[..LineStart(ls, k)]) == k
  {
    var text, start := Join(ls), LineStart(ls, k);
    LineStartInJoin(ls, k);
    if k == 0 {
      assert text[..start] == [];
    } else {
      var before := Join(ls[..k]);
      JoinPrefix(ls, k);
      JoinPrefixLength(ls, k);
      assert text[..start] == before + "\n" by {
        assert text[..start] == text[..|before|] + [text[start - 1]];
      }
      NewlineCountJoin(ls, k);
      NewlineCountAppend(before, "\n");
      assert NewlineCount("\n") == 1 by {
        assert "\n"[..0] == [];
      }
    }
  }

  /** The text from line `k`'s start up to column `column` is the line's first `column` characters. */
  lemma ColumnSlice(ls: seq<string>, k: nat, column: nat)
    requires k < |ls| && column <= |ls[k]|
    requires '\n' !in ls[k]
    ensures LineStart(ls, k) + column <= |Join(ls)|
    ensures Join(ls)[LineStart(ls, k)..LineStart(ls, k) + column] == ls[k][..column]
    ensures '\n' !in Join(ls)[LineStart(ls, k)..LineStart(ls, k) + column]
    ensures k > 0 ==> Join(ls)[LineStart(ls, k) - 1] == '\n'
  {
    var text, start := Join(ls), LineStart(ls, k);
    var cursor := start + column;
    LineStartInJoin(ls, k);
    assert text[start..cursor] == text[start..start + |ls[k]|][..column];
    forall i | 0 <= i < column ensures text[start..cursor][i] != '\n' {
      assert text[start..cursor][i] == ls[k][i];
    }
  }

  /** Exactly `k` newlines come before any column of line `k`. */
  lemma NewlinesBeforeColumn(ls: seq<string>, k: nat, column: nat)
    requires k < |ls| && column <= |ls[k]|
    requires forall j :: 0 <= j < |ls| ==> '\n' !in ls[j]
    ensures LineStart(ls, k) + column <= |Join(ls)|
    ensures NewlineCount(Join(ls)[..LineStart(ls, k) + column]) == k
  {
    var text, start := Join(ls), LineStart(ls, k);
    var cursor := start + column;
    ColumnSlice(ls, k, column);
    NewlinesBeforeLine(ls, k);
    NewlineCountSplit(text, start, cursor);
    NewlineCountOfLine(text[start..cursor]);
  }

  /**
   * Column `column` of line `k` in the joined lines: the text from the
   * line's start up to it is the line's first `column` characters with no
   * newline among them, a newline precedes the line's start, and exactly
   * `k` newlines come before it.
   */
  lemma ColumnInJoin(ls: seq<string>, k: nat, column: nat)
    requires k < |ls| && column <= |ls[k]|
    requires forall j :: 0 <= j < |ls| ==> '\n' !in ls[j]
    ensures var text, start := Join(ls), LineStart(ls, k);
      && start + column <= |text|
      && text[start..start + column] == ls[k][..column]
      && '\n' !in text[start..start + column]
      && (k > 0 ==> text[start - 1] == '\n')
      && NewlineCount(text[..start + column]) == k
  {
    ColumnSlice(ls, k, column);
    NewlinesBeforeColumn(ls, k, column);
  }

  /**
   * The cursor lands on the target line at the target column: exactly that
   * many newlines precede it, the text from the line's start up to it is
   * the line's first `column` characters with no newline among them, and
   * the line's start follows a newline (or is the start of the script).
   */
  lemma CursorOnTarget(script: string, line: int, position: int)
    ensures var ls, k, column := SplitLines(script), TargetLine(script, line), TargetPosition(script, line, position);
      var start, cursor := LineStart(ls, k), CursorIndex(script, line, position);
      && start + column == cursor
      && script[start..cursor] == ls[k][..column]
      && '\n' !in script[start..cursor]
      && (k > 0 ==> script[start - 1] == '\n')
      && NewlineCount(script[..cursor]) == k
  {
    var ls := SplitLines(script);
    var k, column := TargetLine(script, line), TargetPosition(script, line, position);
    var start := LineStart(ls, k);
    assert CursorIndex(script, line, position) == start + column;
    JoinSplitLines(script);
    ColumnInJoin(ls, k, column);
    assert Join(ls) == script;
  }

  /** A click inside the script moves the cursor to exactly the clicked line and column. */
  lemma ClickInsideScript(script: string, line: int, position: int)
    requires 0 <= line < |SplitLines(script)| && 0 <= position <= |SplitLines(script)[line]|
    ensures TargetLine(script, line) == line && TargetPosition(script, line, position) == position
    ensures CursorIndex(script, line, position) == LineStart(SplitLines(script), line) + position
  {
  }

  // ---------------------------------------------------------------------
  // Launch errors and the exit code
  // ---------------------------------------------------------------------

  /** The exception a run ends with: whether it is an `IOException`, and its message, if any. */
  datatype RunException = RunException(isIOException: bool, message: Option<string>)

  /** The text of a possibly absent message inside a string template. */
  function MessageText(message: Option<string>): string {
    if message.Some? then message.value else "null"
  }

  /** The exception says that the Kotlin compiler could not be started. */
  predicate IsCompilerMissing(e: RunException) {
    && e.isIOException
    && e.message.Some?
    && Contains(e.message.value, "kotlinc")
    && StartsWith(e.message.value, "Cannot run program")
  }

  /**
   * The message of the error dialog: the configured compiler-not-found
   * text followed by a blank line and the exception's message when the
   * compiler could not be started; otherwise the generic text directly
   * followed by the message.
   */
  function ErrorMessageFor(e: RunException, compilerNotFound: string, genericError: string): (r: string)
    ensures IsCompilerMissing(e) ==> r == compilerNotFound + "\n\n" + e.message.value
    ensures !IsCompilerMissing(e) ==> r == genericError + MessageText(e.message)
  {
    if IsCompilerMissing(e) then compilerNotFound + "\n\n" + e.message.value
    else genericError + MessageText(e.message)
  }

  /** Only an I/O exception can report the missing compiler; any other gets the generic text. */
  lemma OtherExceptionsAreGeneric(message: Option<string>, compilerNotFound: string, genericError: string)
    ensures ErrorMessageFor(RunException(false, message), compilerNotFound, genericError) == genericError + MessageText(message)
    ensures ErrorMessageFor(RunException(true, None), compilerNotFound, genericError) == genericError + "null"
  {
  }

  /**
   * The JVM's message for a `kotlinc` that cannot be found, whatever
   * follows the program name, is recognised as the missing compiler.
   */
  lemma MissingKotlincRecognised(rest: string, compilerNotFound: string, genericError: string)
    ensures var m := "Cannot run program" + " \"" + "kotlinc" + "\"" + rest;
      ErrorMessageFor(RunException(true, Some(m)), compilerNotFound, genericError) == compilerNotFound + "\n\n" + m
  {
    var head, name := "Cannot run program" + " \"", "kotlinc";
    var m := "Cannot run program" + " \"" + "kotlinc" + "\"" + rest;
    assert m == head + name + ("\"" + rest);
    assert m[|head|..|head| + |name|] == name;
    assert OccursAt(m, name, |head|);
    assert m == "Cannot run program" + (" \"" + "kotlinc" + "\"" + rest);
    assert StartsWith(m, "Cannot run program");
  }

  /** The colour the exit code is drawn in. */
  datatype LabelColor = PrimaryColor | ErrorColor

  /** The label under the run button: the exit code, or "N/A" while there is none. */
  function ExitCodeLabel(exitCode: Option<int>): (r: string)
    ensures exitCode.None? ==> r == "Exit Code: N/A"
    ensures exitCode.Some? ==> r == "Exit Code: " + IntToString(exitCode.value)
  {
    "Exit Code: " + (if exitCode.Some? then IntToString(exitCode.value) else "N/A")
  }

  /** The primary colour for success or no code yet, the error colour for any other code. */
  function ExitCodeColor(exitCode: Option<int>): (r: LabelColor)
    ensures r == PrimaryColor <==> exitCode == None || exitCode == Some(0)
  {
    if exitCode == Some(0) || exitCode == None then PrimaryColor else ErrorColor
  }

  /**
   * The label can be read back: "N/A" is no code, and the digits after the
   * prefix of a non-negative code spell that code.
   */
  lemma ExitCodeLabelReadBack(exitCode: Option<int>)
    ensures var shown := ExitCodeLabel(exitCode);
      && |shown| > 11 && shown[..11] == "Exit Code: "
      && (exitCode.None? <==> shown[11..] == "N/A")
  {
    var shown := ExitCodeLabel(exitCode);
    if exitCode.Some? {
      var digits := IntToString(exitCode.value);
      assert shown[11..] == digits;
      assert digits[|digits| - 1] != 'A';
    }
  }

  /** A non-negative exit code is shown as the decimal digits of that code. */
  lemma ExitCodeLabelDigits(code: nat)
    ensures var digits := ExitCodeLabel(Some(code))[11..];
      (forall i :: 0 <= i < |digits| ==> '0' <= digits[i] <= '9') && DecimalValue(digits) == code
  {
    assert ExitCodeLabel(Some(code))[11..] == NatToDecimal(code);
    NatToDecimalValue(code);
  }

  // ---------------------------------------------------------------------
  // Run state
  // ---------------------------------------------------------------------

  /**
   * The state of one editor window that the run button drives: whether a
   * run is in progress, the output so far, the last exit code and the
   * pending error message, with the configured texts they are built from.
   */
  class ScriptEditorView {
    var isRunning: bool
    var output: string
    var exitCode: Option<int>
    var errorMessage: Option<string>
    const errorPrefix: string
    const compilerNotFound: string
    const genericError: string

    /**
     * Nothing is reported while a run is in progress, and a run ends with
     * an exit code or with an error message, never both.
     */
    ghost predicate Valid()
      reads this
    {
      && (isRunning ==> exitCode == None && errorMessage == None)
      && !(exitCode.Some? && errorMessage.Some?)
    }

    /** A fresh window: idle, with empty output and nothing to report. */
    constructor(errorPrefix: string, compilerNotFound: string, genericError: string)
      ensures Valid()
      ensures !isRunning && output == "" && exitCode == None && errorMessage == None
      ensures this.errorPrefix == errorPrefix && this.compilerNotFound == compilerNotFound
      ensures this.genericError == genericError
    {
      isRunning := false;
      output := "";
      exitCode := None;
      errorMessage := None;
      this.errorPrefix := errorPrefix;
      this.compilerNotFound := compilerNotFound;
      this.genericError := genericError;
    }

    /** The run button can be pressed exactly when no run is in progress. */
    function ButtonEnabled(): bool
      reads this
    {
      !isRunning
    }

    /** The run button's text. */
    function ButtonLabel(): (r: string)
      reads this
      ensures r == (if ButtonEnabled() then "Execute" else "Running...")
    {
      if isRunning then "Running..." else "Execute"
    }

    /** Pressing the button starts a run: running, with the output and both reports cleared. */
    method OnExecuteClick()
      requires Valid() && ButtonEnabled()
      modifies this
      ensures Valid()
      ensures isRunning && !ButtonEnabled()
      ensures output == "" && exitCode == None && errorMessage == None
    {
      isRunning := true;
      output := "";
      exitCode := None;
      errorMessage := None;
    }

    /** A line the script printed is appended to the output, with a newline. */
    method OnStdoutLine(line: string)
      requires Valid()
      modifies this`output
      ensures Valid()
      ensures output == old(output) + line + "\n"
    {
      output := output + line + "\n";
    }

    /** A line of the script's error stream is appended after the error prefix and a space. */
    method OnStderrLine(error: string)
      requires Valid()
      modifies this`output
      ensures Valid()
      ensures output == old(output) + errorPrefix + " " + error + "\n"
    {
      output := output + errorPrefix + " " + error + "\n";
    }

    /** The run finished: the button is enabled again and the exit code is shown. */
    method OnRunFinished(code: int)
      requires Valid() && isRunning
      modifies this`isRunning, this`exitCode
      ensures Valid()
      ensures !isRunning && ButtonEnabled() && exitCode == Some(code)
      ensures errorMessage == None
    {
      isRunning := false;
      exitCode := Some(code);
    }

    /** The run could not complete: the button is enabled again, there is no exit code, and an error is pending. */
    method OnRunFailed(e: RunException)
      requires Valid() && isRunning
      modifies this`isRunning, this`errorMessage
      ensures Valid()
      ensures !isRunning && ButtonEnabled() && exitCode == None
      ensures errorMessage == Some(ErrorMessageFor(e, compilerNotFound, genericError))
    {
      isRunning := false;
      errorMessage := Some(ErrorMessageFor(e, compilerNotFound, genericError));
    }

    /** Closing the error dialog clears the pending message. */
    method OnErrorDismissed()
      requires Valid()
      modifies this`errorMessage
      ensures Valid()
      ensures errorMessage == None
    {
      errorMessage := None;
    }
  }
}
