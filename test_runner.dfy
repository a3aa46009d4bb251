/** `uploads/test_runner.py`: reads a test-case file, splits it into
    input/expected records, runs the target program once per record and
    reports one result record per case. Running the program is an input:
    `run` maps a test case to what the execution came to. */
module TestRunner {
  import opened Text

  const RecordSeparator: string := "\n---\n"
  const FieldSeparator: string := "|||"
  const UsageMessage: string := "Usage: test_runner.py <test_file_path> <target_file>"
  const TimeoutMessage: string := "Execution timed out after 5 seconds"

  /** A parsed test case: the `input` and `expected` entries. */
  datatype Case = Case(input: string, expected: string)

  /** One record as the file holds it: input, `|||`, expected output. */
  function RecordText(c: Case): string
  {
    c.input + FieldSeparator + c.expected
  }

  /** One record of the file: stripped; empty records are skipped, and a
      record becomes a case only when `|||` cuts it into exactly two parts,
      each stored stripped. */
  function ParseRecord(text: string): (r: Option<Case>)
    ensures r.Some? <==> Strip(text) != [] && |PySplit(Strip(text), FieldSeparator)| == 2
    ensures r.Some? ==> Stripped(r.value.input) && Stripped(r.value.expected)
  {
    var t := Strip(text);
    if t == [] then None
    else
      var parts := PySplit(t, FieldSeparator);
      if |parts| == 2 then Some(Case(Strip(parts[0]), Strip(parts[1]))) else None
  }

  /** The cases the records yield, in record order. */
  function ParseRecords(texts: seq<string>): (r: seq<Case>)
    ensures |r| <= |texts|
    ensures forall k :: 0 <= k < |r| ==> Stripped(r[k].input) && Stripped(r[k].expected)
  {
    if texts == [] then []
    else
      var init := ParseRecords(texts[..|texts| - 1]);
      match ParseRecord(texts[|texts| - 1])
      case None => init
      case Some(c) => init + [c]
  }

  /** The parsing half of `run_tests`: split the content at `\n---\n` and
      collect the cases the records yield. */
  method ParseTestCases(content: string) returns (cases: seq<Case>)
    ensures cases == ParseRecords(PySplit(content, RecordSeparator))
  {
    var texts := PySplit(content, RecordSeparator);
    cases := [];
    var i := 0;
    while i < |texts|
      invariant 0 <= i <= |texts|
      invariant cases == ParseRecords(texts[..i])
    {
      var parsed := ParseRecord(texts[i]);
      ParseRecordsSnoc(texts, i, parsed);
      if parsed.Some? {
        cases := cases + [parsed.value];
      }
      i := i + 1;
    }
    assert texts[..|texts|] == texts;
  }

  /** The cases of one more record are those of the records before it,
      followed by the case that record yields, if any. */
  lemma ParseRecordsSnoc(texts: seq<string>, i: int, parsed: Option<Case>)
    requires 0 <= i < |texts| && parsed == ParseRecord(texts[i])
    ensures ParseRecords(texts[..i + 1])
         == if parsed.Some? then ParseRecords(texts[..i]) + [parsed.value] else ParseRecords(texts[..i])
  {
    assert texts[..i + 1][..i] == texts[..i];
  }

  /** The records a file holds for `cases`, in order. */
  function RecordTexts(cases: seq<Case>): (r: seq<string>)
    ensures |r| == |cases|
    ensures forall k :: 0 <= k < |cases| ==> r[k] == RecordText(cases[k])
  {
    if cases == [] then [] else RecordTexts(cases[..|cases| - 1]) + [RecordText(cases[|cases| - 1])]
  }

  /** A test-case file holding `cases`. */
  function Serialize(cases: seq<Case>): string
  {
    Join(RecordTexts(cases), RecordSeparator)
  }

  /** A case a file can carry so that it is read back as it was written:
      both fields stripped, the input not running into the `|||` after it,
      the expected output free of `|||`, and the record not running into the
      `\n---\n` after it. */
  predicate Writable(c: Case)
  {
    && Stripped(c.input) && Stripped(c.expected)
    && Delimited(c.input, FieldSeparator)
    && IndexOf(c.expected, FieldSeparator) == -1
    && Delimited(RecordText(c), RecordSeparator)
  }

  /** A written record is parsed back into its case. */
  lemma RecordRoundTrip(c: Case)
    requires Writable(c)
    ensures ParseRecord(RecordText(c)) == Some(c)
  {
    var t := RecordText(c);
    assert Stripped(t) by {
      assert t[0] == if c.input == [] then '|' else c.input[0];
      assert t[|t| - 1] == if c.expected == [] then '|' else c.expected[|c.expected| - 1];
    }
    var parts := [c.input, c.expected];
    assert Join(parts, FieldSeparator) == t by {
      assert parts[1..] == [c.expected];
    }
    SplitJoin(parts, FieldSeparator);
  }

  /** A last record that yields a case adds that case at the end. */
  lemma ParsedLast(texts: seq<string>, c: Case)
    requires texts != [] && ParseRecord(texts[|texts| - 1]) == Some(c)
    ensures ParseRecords(texts) == ParseRecords(texts[..|texts| - 1]) + [c]
  {
  }

  /** When every record yields a case, the parse keeps one case per
      record, in record order. */
  lemma {:induction false} EveryRecordParsed(texts: seq<string>, cases: seq<Case>)
    requires |texts| == |cases|
    requires forall k {:trigger cases[k]} :: 0 <= k < |texts| ==> ParseRecord(texts[k]) == Some(cases[k])
    ensures ParseRecords(texts) == cases
    decreases |texts|
  {
    if texts != [] {
      var n := |texts| - 1;
      var front, parsed := texts[..n], cases[..n];
      forall k | 0 <= k < n
        ensures ParseRecord(front[k]) == Some(parsed[k])
      {
        assert front[k] == texts[k] && parsed[k] == cases[k];
      }
      EveryRecordParsed(front, parsed);
      assert ParseRecord(texts[n]) == Some(cases[n]);
      ParsedLast(texts, cases[n]);
      LastSplit(cases);
    }
  }

  /** A non-empty sequence is its front followed by its last element. */
  lemma LastSplit<T>(s: seq<T>)
    requires s != []
    ensures s == s[..|s| - 1] + [s[|s| - 1]]
  {
  }

  /** Parsing the records of well-formed cases gives the cases back. */
  lemma RecordsRoundTrip(cases: seq<Case>)
    requires forall k :: 0 <= k < |cases| ==> Writable(cases[k])
    ensures ParseRecords(RecordTexts(cases)) == cases
  {
    var texts := RecordTexts(cases);
    forall k | 0 <= k < |texts|
      ensures ParseRecord(texts[k]) == Some(cases[k])
    {
      RecordRoundTrip(cases[k]);
    }
    EveryRecordParsed(texts, cases);
  }

  /** Writing well-formed cases to a file and parsing the file gives the
      same cases in the same order. */
  lemma SerializeRoundTrip(cases: seq<Case>)
    requires forall k :: 0 <= k < |cases| ==> Writable(cases[k])
    ensures ParseRecords(PySplit(Serialize(cases), RecordSeparator)) == cases
  {
    var texts := RecordTexts(cases);
    if cases == [] {
      assert PySplit("", RecordSeparator) == [""];
      assert ParseRecords([""]) == [];
    } else {
      forall k | 0 <= k < |texts| - 1
        ensures Delimited(texts[k], RecordSeparator)
      {
      }
      DelimitedHasNone(texts[|texts| - 1], RecordSeparator);
      SplitJoin(texts, RecordSeparator);
      RecordsRoundTrip(cases);
    }
  }

  /** What running the target program on one case came to: it finished
      (captured standard output and error, sampled memory, elapsed
      milliseconds); `communicate` timed out; another exception was raised
      while running it (its `str`); or an exception escaped the inner
      handlers and the case was skipped. */
  datatype Execution =
    | Finished(stdout: string, stderr: string, memory: int, runtime: int)
    | TimedOut
    | Errored(message: string)
    | Dropped

  /** A result record. */
  datatype TestResult = TestResult(
    input: string,
    expected: string,
    actual: string,
    status: string,
    memory: int,
    runtime: int,
    error: Option<string>)

  /** The result record for one case, if any. */
  function Grade(c: Case, e: Execution): (r: Option<TestResult>)
    ensures r.None? <==> e.Dropped?
    ensures r.Some? ==> r.value.input == c.input && r.value.expected == c.expected
    ensures r.Some? ==> r.value.status in {"Passed", "Failed"}
    ensures r.Some? ==> (r.value.status == "Passed" <==> e.Finished? && Strip(e.stdout) == Strip(c.expected))
    ensures e.TimedOut? ==> r == Some(TestResult(c.input, c.expected, "Timeout", "Failed", 0, 5000, Some(TimeoutMessage)))
    ensures e.Errored? ==> r == Some(TestResult(c.input, c.expected, "", "Failed", 0, 0, Some(e.message)))
    ensures e.Finished? ==> r.value.actual == Strip(e.stdout) && Stripped(r.value.actual)
    ensures e.Finished? ==> r.value.error == if e.stderr == "" then None else Some(Strip(e.stderr))
  {
    match e
    case Finished(stdout, stderr, memory, runtime) =>
      var actual := Strip(stdout);
      var expected := Strip(c.expected);
      var passed := actual == expected;
      Some(TestResult(c.input, c.expected, actual, if passed then "Passed" else "Failed",
                      memory, runtime, if stderr != "" then Some(Strip(stderr)) else None))
    case TimedOut =>
      Some(TestResult(c.input, c.expected, "Timeout", "Failed", 0, 5000, Some(TimeoutMessage)))
    case Errored(message) =>
      Some(TestResult(c.input, c.expected, "", "Failed", 0, 0, Some(message)))
    case Dropped =>
      None
  }

  /** For a case read from a file (expected output already stripped), the
      comparison is stripped output against the stored expected output. */
  lemma PassedMeansSameOutput(c: Case, e: Execution)
    requires Stripped(c.expected) && e.Finished?
    ensures Grade(c, e).value.status == "Passed" <==> Strip(e.stdout) == c.expected
  {
  }

  /** The results of all cases, in case order. */
  function Results(cases: seq<Case>, run: Case -> Execution): seq<TestResult>
  {
    if cases == [] then []
    else
      var init := Results(cases[..|cases| - 1], run);
      var last := cases[|cases| - 1];
      match Grade(last, run(last))
      case None => init
      case Some(t) => init + [t]
  }

  /** The results of one more case: those of the cases before it, then
      its own record, if any. */
  lemma ResultsLast(cases: seq<Case>, run: Case -> Execution)
    requires cases != []
    ensures var n := |cases| - 1;
      Results(cases, run) == match Grade(cases[n], run(cases[n]))
        case None => Results(cases[..n], run)
        case Some(t) => Results(cases[..n], run) + [t]
  {
  }

  /** The cases that were not dropped, by position: the indexes rise
      strictly, so every case has at most one result and the results keep
      the case order; every case that was not dropped is listed. */
  function ResultOrigins(cases: seq<Case>, run: Case -> Execution): (idx: seq<int>)
    ensures forall k :: 0 <= k < |idx| ==> 0 <= idx[k] < |cases| && !run(cases[idx[k]]).Dropped?
    ensures forall k, l :: 0 <= k < l < |idx| ==> idx[k] < idx[l]
    ensures forall i :: 0 <= i < |cases| && !run(cases[i]).Dropped? ==> i in idx
  {
    if cases == [] then []
    else
      var n := |cases| - 1;
      var init := ResultOrigins(cases[..n], run);
      assert forall i :: 0 <= i < n ==> cases[..n][i] == cases[i];
      if run(cases[n]).Dropped? then init else init + [n]
  }

  /** There is one result per case that was not dropped, and each is the
      record of the case `ResultOrigins` names for it. */
  lemma {:induction false} ResultsComeFromCases(cases: seq<Case>, run: Case -> Execution)
    ensures var idx, rs := ResultOrigins(cases, run), Results(cases, run);
      && |idx| == |rs|
      && forall k :: 0 <= k < |idx| ==> Grade(cases[idx[k]], run(cases[idx[k]])) == Some(rs[k])
    decreases |cases|
  {
    if cases != [] {
      var n := |cases| - 1;
      var front := cases[..n];
      ResultsComeFromCases(front, run);
      ResultsLast(cases, run);
      var idx, rs := ResultOrigins(cases, run), Results(cases, run);
      var idx0, rs0 := ResultOrigins(front, run), Results(front, run);
      assert |idx| == |rs|;
      forall k | 0 <= k < |idx|
        ensures Grade(cases[idx[k]], run(cases[idx[k]])) == Some(rs[k])
      {
        if k < |idx0| {
          assert idx[k] == idx0[k] && rs[k] == rs0[k];
          assert front[idx0[k]] == cases[idx[k]];
        } else {
          assert idx[k] == n;
        }
      }
    }
  }

  /** The grading half of `run_tests`: one pass over the cases, appending
      each result record. */
  method RunTests(cases: seq<Case>, run: Case -> Execution) returns (results: seq<TestResult>)
    ensures results == Results(cases, run)
  {
    results := [];
    var i := 0;
    while i < |cases|
      invariant 0 <= i <= |cases|
      invariant results == Results(cases[..i], run)
    {
      assert cases[..i + 1][..i] == cases[..i];
      var graded := Grade(cases[i], run(cases[i]));
      if graded.Some? {
        results := results + [graded.value];
      }
      i := i + 1;
    }
    assert cases[..|cases|] == cases;
  }

  /** The `__main__` check: exactly two arguments after the script name;
      otherwise the usage line and exit status 1. */
  function CheckArgs(argv: seq<string>): (r: Result<(string, string), (string, int)>)
    ensures r.Ok? <==> |argv| == 3
    ensures r.Ok? ==> r.value == (argv[1], argv[2])
    ensures r.Err? ==> r.error == (UsageMessage, 1)
  {
    if |argv| != 3 then Err((UsageMessage, 1)) else Ok((argv[1], argv[2]))
  }
}
