/** `FileExecutionService`: runs the sandbox runner script for one
    submission, captures its merged output line by line, cuts the lint and
    execution sections out of it at the `LINTING` and `EXECUTION` markers,
    and moves the submission's status from Running to Completed or Failed,
    saving it at each step. The process itself is an input: `execute` maps
    the command line to what the process did. */
module FileExecution {
  import opened Text
  import opened Entities

  const ScriptPath: string := "Scripts/docker_runner_python.py"
  const LintingMarker: string := "LINTING"
  const ExecutionMarker: string := "EXECUTION"

  /** The command line: the interpreter, the script, and the archive name as
      the one and only argument (standard error is merged into standard
      output). */
  function Command(zipFileName: string): (cmd: seq<string>)
    ensures |cmd| == 3 && cmd[1] == ScriptPath && cmd[2] == zipFileName
  {
    ["python3", ScriptPath, zipFileName]
  }

  /** What running the command came to. `Exited` carries the exit code and
      the lines `readLine` returned (without their terminators); `IoError`
      is an IOException while starting or reading the process;
      `Interrupted` is an InterruptedException from `waitFor`, whose
      message is `null`. */
  datatype ProcessRun =
    | Exited(exitCode: int, lines: seq<string>)
    | IoError(message: Option<string>)
    | Interrupted

  /** The captured text: every line read, each followed by a newline. */
  function JoinLines(lines: seq<string>): string
  {
    if lines == [] then "" else JoinLines(lines[..|lines| - 1]) + lines[|lines| - 1] + "\n"
  }

  /** The message of the IOException a non-zero exit raises. */
  function ExitFailureMessage(exitCode: int): string
  {
    "Script execution failed with exit code " + IntToString(exitCode)
  }

  /** What `runScript` returns (`Ok` with the captured text) or the message
      of the exception it throws (`Err`). */
  function ScriptOutcome(run: ProcessRun): Result<string, Option<string>>
  {
    match run
    case Exited(code, lines) =>
      if code != 0 then Err(Some(ExitFailureMessage(code))) else Ok(JoinLines(lines))
    case IoError(message) => Err(message)
    case Interrupted => Err(None)
  }

  /** `runScript`: start the runner, append each line read and a newline to
      the buffer, then check the exit code. The captured text of a failed
      run is only logged. */
  method RunScript(zipFileName: string, execute: seq<string> -> ProcessRun)
    returns (r: Result<string, Option<string>>)
    ensures r == ScriptOutcome(execute(Command(zipFileName)))
  {
    var run := execute(Command(zipFileName));
    match run {
      case IoError(message) =>
        return Err(message);
      case Interrupted =>
        return Err(None);
      case Exited(exitCode, lines) =>
        var output := "";
        var i := 0;
        while i < |lines|
          invariant 0 <= i <= |lines|
          invariant output == JoinLines(lines[..i])
        {
          assert lines[..i + 1][..i] == lines[..i];
          output := output + lines[i] + "\n";
          i := i + 1;
        }
        assert lines[..|lines|] == lines;
        if exitCode != 0 {
          return Err(Some(ExitFailureMessage(exitCode)));
        }
        return Ok(output);
    }
  }

  /** Appending one piece to a join of at least one piece. */
  lemma {:induction false} JoinSnoc(parts: seq<string>, x: string, sep: string)
    requires |parts| >= 1
    ensures Join(parts + [x], sep) == Join(parts, sep) + sep + x
    decreases |parts|
  {
    if |parts| > 1 {
      assert (parts + [x])[1..] == parts[1..] + [x];
      JoinSnoc(parts[1..], x, sep);
    }
  }

  /** The captured text is the lines joined by newlines with one more
      newline at the end. */
  lemma {:induction false} JoinLinesIsJoin(lines: seq<string>)
    ensures JoinLines(lines) == Join(lines + [""], "\n")
    decreases |lines|
  {
    if lines != [] {
      var init, last := lines[..|lines| - 1], lines[|lines| - 1];
      JoinLinesIsJoin(init);
      assert lines == init + [last];
      assert lines + [""] == (init + [last]) + [""];
      if init == [] {
        assert lines + [""] == [last, ""];
      } else {
        JoinSnoc(init, "", "\n");
        JoinSnoc(init, last, "\n");
        JoinSnoc(init + [last], "", "\n");
      }
    }
  }

  /** A line that holds no newline is delimited by the newline after it. */
  lemma LineDelimited(line: string)
    requires '\n' !in line
    ensures Delimited(line, "\n")
  {
    var t := line + "\n";
    assert OccursAt(t, "\n", |line|);
    forall j | 0 <= j < |line|
      ensures !OccursAt(t, "\n", j)
    {
      assert t[j..j + 1] == [line[j]];
    }
    IndexOfIs(t, "\n", |line|);
  }

  /** No line boundary is lost: splitting the captured text at newlines
      gives back the lines read, followed by the empty text after the last
      newline. */
  lemma CapturedLinesReadBack(lines: seq<string>)
    requires forall k :: 0 <= k < |lines| ==> '\n' !in lines[k]
    ensures PySplit(JoinLines(lines), "\n") == lines + [""]
  {
    JoinLinesIsJoin(lines);
    var parts := lines + [""];
    forall k | 0 <= k < |parts| - 1
      ensures Delimited(parts[k], "\n")
    {
      LineDelimited(lines[k]);
    }
    assert IndexOf(parts[|parts| - 1], "\n") == -1;
    SplitJoin(parts, "\n");
  }

  /** The two sections cut out of the captured text. */
  datatype Sections = Sections(lintOutput: string, output: string)

  /** The slicing in `runScriptAsync`: the lint section runs from seven
      characters after the first `LINTING` to the first `EXECUTION`, the
      output from ten characters after `EXECUTION` (the marker and the
      newline after it) to the end. `None` is the
      StringIndexOutOfBoundsException `substring` throws when those bounds
      are out of order or out of range. */
  function SliceMarkers(raw: string): (r: Option<Sections>)
    ensures var li, ei := IndexOf(raw, LintingMarker), IndexOf(raw, ExecutionMarker);
      && (r.Some? <==> ei >= 0 && li + 7 <= ei && ei + 10 <= |raw|)
      && (r.Some? ==> r.value.lintOutput == raw[li + 7..ei] && r.value.output == raw[ei + 10..])
  {
    var li := IndexOf(raw, LintingMarker);
    var ei := IndexOf(raw, ExecutionMarker);
    if li + 7 <= ei && ei + 10 <= |raw| then
      Some(Sections(raw[li + 7..ei], raw[ei + 10..]))
    else
      None
  }

  /** The slicing fails (the exception escapes) exactly when `EXECUTION`
      is missing, starts before the lint section does, or is not followed
      by at least one more character. */
  lemma SliceMarkersFails(raw: string)
    ensures SliceMarkers(raw).None? <==>
      (|| !Contains(raw, ExecutionMarker)
       || IndexOf(raw, ExecutionMarker) < IndexOf(raw, LintingMarker) + 7
       || |raw| < IndexOf(raw, ExecutionMarker) + 10)
  {
  }

  /** Without a `LINTING` marker the lint section silently starts at index
      6 (the -1 from `indexOf` plus 7). */
  lemma MissingLintingStartsAtSix(raw: string)
    requires !Contains(raw, LintingMarker)
    requires SliceMarkers(raw).Some?
    ensures SliceMarkers(raw).value.lintOutput == raw[6..IndexOf(raw, ExecutionMarker)]
  {
  }

  /** Captured text of lines concatenates. */
  lemma {:induction false} JoinLinesAppend(a: seq<string>, b: seq<string>)
    ensures JoinLines(a + b) == JoinLines(a) + JoinLines(b)
    decreases |b|
  {
    if b != [] {
      var init, last := b[..|b| - 1], b[|b| - 1];
      assert (a + b)[..|a + b| - 1] == a + init;
      assert (a + b)[|a + b| - 1] == last;
      assert JoinLines(a + b) == JoinLines(a + init) + last + "\n";
      JoinLinesAppend(a, init);
    } else {
      assert a + b == a;
    }
  }

  /** The text the runner script prints: a preamble `p`, the `LINTING`
      line, the linter's text `l`, the `EXECUTION` line, the program's text
      `e`. When neither marker shows up earlier than the runner's own,
      slicing yields the linter's text behind the newline that ends the
      `LINTING` line, and exactly the program's text, which may be empty. */
  lemma RunnerTextSlices(p: string, l: string, e: string)
    requires Delimited(p, LintingMarker)
    requires Delimited(p + LintingMarker + "\n" + l, ExecutionMarker)
    ensures SliceMarkers(p + LintingMarker + "\n" + l + ExecutionMarker + "\n" + e)
         == Some(Sections("\n" + l, e))
  {
    var before := p + LintingMarker + "\n" + l;
    var raw := before + ExecutionMarker + "\n" + e;
    MarkerPositions(p, l, e);
    Regroup(p + LintingMarker, "\n", l);
    Regroup(before + ExecutionMarker, "\n", e);
    Regroup(before, ExecutionMarker, "\n");
    Regroup(before, ExecutionMarker + "\n", e);
    MiddleSlice(p + LintingMarker, "\n" + l, ExecutionMarker + "\n" + e);
    MiddleSlice(before, ExecutionMarker + "\n", e);
  }

  /** The middle part of three concatenated texts is found at its offset. */
  lemma MiddleSlice(a: string, b: string, c: string)
    ensures (a + b + c)[|a|..|a| + |b|] == b
    ensures (a + b + c)[|a| + |b|..] == c
  {
  }

  /** A marker that ends the text before it is still found there when more
      text follows. */
  lemma DelimitedExtend(t: string, marker: string, u: string)
    requires Delimited(t, marker)
    ensures IndexOf(t + marker + u, marker) == |t|
  {
    assert t + marker + u == (t + marker) + u;
    IndexOfExtend(t + marker, u, marker);
  }

  /** Where the two markers are found in the runner's text. */
  lemma MarkerPositions(p: string, l: string, e: string)
    requires Delimited(p, LintingMarker)
    requires Delimited(p + LintingMarker + "\n" + l, ExecutionMarker)
    ensures var before := p + LintingMarker + "\n" + l;
      && IndexOf(before + ExecutionMarker + "\n" + e, LintingMarker) == |p|
      && IndexOf(before + ExecutionMarker + "\n" + e, ExecutionMarker) == |before|
  {
    MarkersFound(p, LintingMarker, "\n", l, ExecutionMarker, e);
  }

  /** `MarkerPositions` for any two markers and line break. */
  lemma MarkersFound(p: string, m1: string, nl: string, l: string, m2: string, e: string)
    requires Delimited(p, m1)
    requires Delimited(p + m1 + nl + l, m2)
    ensures IndexOf(p + m1 + nl + l + m2 + nl + e, m1) == |p|
    ensures IndexOf(p + m1 + nl + l + m2 + nl + e, m2) == |p + m1 + nl + l|
  {
    var before := p + m1 + nl + l;
    Regroup(p + m1, nl + l, m2 + nl + e);
    Regroup(nl, l, m2 + nl + e);
    Regroup(before, m2 + nl, e);
    Regroup(before, m2, nl);
    assert before + m2 + nl + e == p + m1 + (nl + l + (m2 + nl + e));
    DelimitedExtend(p, m1, nl + l + (m2 + nl + e));
    Regroup(before + m2, nl, e);
    DelimitedExtend(before, m2, nl + e);
  }

  /** The same layout stated over the lines the runner prints; a program
      that prints nothing gives an empty output section. */
  lemma RunnerLayoutSlices(pre: seq<string>, lint: seq<string>, exec: seq<string>)
    requires Delimited(JoinLines(pre), LintingMarker)
    requires Delimited(JoinLines(pre + [LintingMarker] + lint), ExecutionMarker)
    ensures SliceMarkers(JoinLines(pre + [LintingMarker] + lint + [ExecutionMarker] + exec))
         == Some(Sections("\n" + JoinLines(lint), JoinLines(exec)))
  {
    var p, l, e := JoinLines(pre), JoinLines(lint), JoinLines(exec);
    JoinLinesAppend(pre, [LintingMarker]);
    JoinLinesAppend(pre + [LintingMarker], lint);
    JoinLinesAppend(pre + [LintingMarker] + lint, [ExecutionMarker]);
    JoinLinesAppend(pre + [LintingMarker] + lint + [ExecutionMarker], exec);
    assert JoinLines([LintingMarker]) == LintingMarker + "\n";
    assert JoinLines([ExecutionMarker]) == ExecutionMarker + "\n";
    assert JoinLines(pre + [LintingMarker] + lint) == p + LintingMarker + "\n" + l;
    assert JoinLines(pre + [LintingMarker] + lint + [ExecutionMarker] + exec)
        == (p + LintingMarker + "\n" + l) + ExecutionMarker + "\n" + e;
    RunnerTextSlices(p, l, e);
  }

  /** How the asynchronous task ended: normally, or with an unchecked
      exception that the task's `catch` does not handle. */
  datatype TaskEnd = Finished | Escaped

  /** `runScriptAsync(zipFileName, submission, repository)`: save the
      submission as Running, run the script, then save it as Completed with
      both sections, or as Failed with the exception's message as output.
      `saves` lists the submission as it was passed to each repository
      save. When the slicing throws, the exception escapes the catch, which
      only handles IOException and InterruptedException: nothing more is
      saved and the submission is left Running. */
  method RunScriptAsync(zipFileName: string, submission: Submission, execute: seq<string> -> ProcessRun)
    returns (final: Submission, saves: seq<Submission>, end: TaskEnd)
    ensures 1 <= |saves| <= 2 && final == saves[|saves| - 1]
    ensures saves[0] == submission.(status := Running)
    ensures forall k :: 1 <= k < |saves| ==> StatusStep(saves[k - 1].status, saves[k].status)
    ensures submission.status == Pending ==> StatusStep(submission.status, saves[0].status)
    ensures match ScriptOutcome(execute(Command(zipFileName)))
      case Err(message) =>
        end == Finished && saves == [saves[0], saves[0].(output := message, status := Failed)]
      case Ok(raw) =>
        match SliceMarkers(raw)
        case Some(s) =>
          end == Finished &&
          saves == [saves[0], saves[0].(output := Some(s.output), lintOutput := Some(s.lintOutput), status := Completed)]
        case None =>
          end == Escaped && saves == [saves[0]]
  {
    var sub := submission.(status := Running);
    saves := [sub];
    var scriptOutput := RunScript(zipFileName, execute);
    match scriptOutput {
      case Err(message) =>
        sub := sub.(output := message);
        sub := sub.(status := Failed);
        saves := saves + [sub];
        end := Finished;
      case Ok(raw) =>
        var sections := SliceMarkers(raw);
        match sections {
          case None =>
            end := Escaped;
          case Some(s) =>
            sub := sub.(output := Some(s.output));
            sub := sub.(lintOutput := Some(s.lintOutput));
            sub := sub.(status := Completed);
            saves := saves + [sub];
            end := Finished;
        }
    }
    final := sub;
  }

  /** A non-zero exit code fails the submission with a message that ends in
      the exit code's decimal digits; the captured text is not kept and the
      lint section is not touched. */
  lemma NonZeroExitFails(zipFileName: string, submission: Submission, code: int, lines: seq<string>, n: nat)
    requires code == n && n != 0
    ensures ScriptOutcome(Exited(code, lines)) == Err(Some(ExitFailureMessage(code)))
    ensures var m := ExitFailureMessage(code);
      StartsWith(m, "Script execution failed with exit code ") &&
      DigitsValue(m[|"Script execution failed with exit code "|..]) == n
  {
    var m := ExitFailureMessage(code);
    assert m[|"Script execution failed with exit code "|..] == NatToString(n);
    DigitsValueOfNatToString(n);
  }
}
