/** The driver (main.go:34-141): every suite file is read, its tests found,
    a runner generated, compiled and run, and the failed suites counted.
    What the outside world answers (file contents, whether a file can be
    created or written, the exit status of each command) is an input; what
    the driver does to the world is a trace of effects. */
module Orchestrator {
  import opened Results
  import LineReader
  import Discovery
  import CommandLine
  import Synthesis

  /** Why reading a suite file can fail. */
  datatype ReadFailure = OpenFailed | ReadFailed

  /** The outside world's answers during one suite. A command that cannot
      be started counts as one with a non-zero status. */
  datatype SuiteWorld = SuiteWorld(
    contents: Result<string, ReadFailure>,
    createOk: bool,
    writeOk: bool,
    compileStatus: int,
    runStatus: int)

  /** What the driver does to the world. */
  datatype Effect =
    | Created(path: string)
    | Wrote(path: string, content: string)
    | Printed(line: string)
    | Ran(command: string, args: seq<string>)
    | Closed(path: string)
    | Removed(path: string)

  /** The errors `runSuite` returns. */
  datatype SuiteError = CreateFailed | WriteFailed | CompileFailed | RunFailed

  /** A suite passes, fails with an error, or ends the whole program
      (`os.Exit(1)` while reading the file or finding its tests). */
  datatype SuiteOutcome = Passed | Failed(error: SuiteError) | Fatal

  /** The compiled runner, as the driver runs it. */
  const RunnerCommand: string := "./" + CommandLine.RunnerBinary

  /** `readTests` and `findTests` together: the suite's code and test names,
      or nothing when either calls `os.Exit(1)`. */
  function LoadSuite(w: SuiteWorld): (r: Option<Synthesis.Test>)
    ensures r.Some? <==> w.contents.Ok? && Discovery.FindTests(w.contents.value).Ok?
    ensures r.Some? ==> r.value.text == w.contents.value
  {
    match w.contents
    case Err(_) => None
    case Ok(code) =>
      match Discovery.FindTests(code)
      case Err(_) => None
      case Ok(tests) => Some(Synthesis.Test(code, tests))
  }

  /** `runSuite` (main.go:67-125), with the parsed template `tmpl`: a suite
      whose file cannot be read or whose tests cannot be found ends the
      program; any other suite is built and run. */
  function RunSuite(tmpl: Synthesis.Template, c: CommandLine.CmdLine, name: string, w: SuiteWorld)
    : (r: (SuiteOutcome, seq<Effect>))
    ensures r.0 == Fatal <==> LoadSuite(w).None?
    ensures r.0 == Fatal ==> r.1 == []
  {
    match LoadSuite(w)
    case None => (Fatal, [])
    case Some(t) => BuildSuite(tmpl, c, name, t, w)
  }

  /** The part of `runSuite` after the tests are found (main.go:74-124).
      The deferred calls run last, most recently deferred first: removing
      the runner binary (deferred only once it has run), closing the
      generated source, removing it. */
  function BuildSuite(tmpl: Synthesis.Template, c: CommandLine.CmdLine, name: string, t: Synthesis.Test, w: SuiteWorld)
    : (r: (SuiteOutcome, seq<Effect>))
    ensures r.0 != Fatal
  {
    var testout := CommandLine.RunnerSource(name);
    var cleanup := [Closed(testout), Removed(testout)];
    if !w.createOk then (Failed(CreateFailed), [])
    else if !w.writeOk then (Failed(WriteFailed), [Created(testout)] + cleanup)
    else
      var built := [Created(testout), Wrote(testout, Synthesis.Execute(tmpl, t)),
                    Printed("Running " + name + "\n"),
                    Ran(c.cxx, CommandLine.ArgVector(c, testout))];
      if w.compileStatus != 0 then (Failed(CompileFailed), built + cleanup)
      else
        var ran := built + [Ran(RunnerCommand, [])] + [Removed(CommandLine.RunnerBinary)] + cleanup;
        if w.runStatus != 0 then (Failed(RunFailed), ran) else (Passed, ran)
  }

  /** How many of the outcomes are failures. */
  function CountFailed(outcomes: seq<SuiteOutcome>): (n: nat)
    ensures n <= |outcomes|
    decreases |outcomes|
  {
    if |outcomes| == 0 then 0
    else (if outcomes[0].Failed? then 1 else 0) + CountFailed(outcomes[1..])
  }

  function Outcomes(tmpl: Synthesis.Template, c: CommandLine.CmdLine, suites: seq<(string, SuiteWorld)>): (os: seq<SuiteOutcome>)
    ensures |os| == |suites|
  {
    seq(|suites|, k requires 0 <= k < |suites| => RunSuite(tmpl, c, suites[k].0, suites[k].1).0)
  }

  /** Some suite ends the program. */
  predicate AnyFatal(outcomes: seq<SuiteOutcome>) {
    exists k :: 0 <= k < |outcomes| && outcomes[k] == Fatal
  }

  /** The suite loop of `main` (main.go:57-64) over the suites' outcomes:
      count the failures, but stop at the first suite that ends the
      program, which exits with 1. Returns the code passed to `os.Exit` and
      how many suites were attempted; the outcomes of suites after a fatal
      one are never looked at. */
  method Tally(outcomes: seq<SuiteOutcome>) returns (code: nat, attempted: nat)
    ensures !AnyFatal(outcomes) ==> code == CountFailed(outcomes) && attempted == |outcomes|
    ensures AnyFatal(outcomes) ==>
      code == 1 && 0 < attempted <= |outcomes| && outcomes[attempted - 1] == Fatal
      && !AnyFatal(outcomes[..attempted - 1])
  {
    var failures := 0;
    var i := 0;
    while i < |outcomes|
      invariant 0 <= i <= |outcomes|
      invariant !AnyFatal(outcomes[..i])
      invariant failures == CountFailed(outcomes[..i])
    {
      var outcome := outcomes[i];
      assert outcomes[..i + 1] == outcomes[..i] + [outcome];
      CountFailedAppend(outcomes[..i], [outcome]);
      if outcome == Fatal {
        assert AnyFatal(outcomes);
        return 1, i + 1;
      }
      if outcome.Failed? {
        failures := failures + 1;
      }
      i := i + 1;
    }
    assert outcomes[..i] == outcomes;
    return failures, i;
  }

  lemma {:induction false} CountFailedAppend(a: seq<SuiteOutcome>, b: seq<SuiteOutcome>)
    ensures CountFailed(a + b) == CountFailed(a) + CountFailed(b)
    decreases |a|
  {
    if |a| == 0 {
      assert a + b == b;
    } else {
      assert (a + b)[1..] == a[1..] + b;
      CountFailedAppend(a[1..], b);
    }
  }

  /** No failures counted exactly when no suite failed. */
  lemma {:induction false} CountFailedZeroIff(outcomes: seq<SuiteOutcome>)
    ensures CountFailed(outcomes) == 0 <==> forall k :: 0 <= k < |outcomes| ==> !outcomes[k].Failed?
    decreases |outcomes|
  {
    if |outcomes| > 0 {
      CountFailedZeroIff(outcomes[1..]);
      assert forall k :: 1 <= k < |outcomes| ==> outcomes[k] == outcomes[1..][k - 1];
    }
  }

  /** `main` (main.go:34-65): build the command line, find the suites (a
      failed search exits with 1), then run them in order. Returns the code
      passed to `os.Exit`, the exit status with the correction of
      `IntendedStatus` (the same status `os.Exit` gives while fewer than
      256 suites fail), and how many suites were attempted. */
  method Drive(flags: CommandLine.Flags, positional: seq<string>,
              objects: Result<seq<string>, CommandLine.GlobError>,
              suites: Result<seq<(string, SuiteWorld)>, CommandLine.GlobError>)
    returns (code: nat, corrected: nat, attempted: nat)
    ensures suites.Err? ==> code == 1 && attempted == 0
    ensures suites.Ok? ==>
      var outcomes := Outcomes(Synthesis.Runner, CommandLine.MakeCmdLine(flags, positional, objects), suites.value);
      && (!AnyFatal(outcomes) ==> code == CountFailed(outcomes) && attempted == |outcomes|)
      && (AnyFatal(outcomes) ==> code == 1 && 0 < attempted <= |outcomes| && outcomes[attempted - 1] == Fatal
                                 && !AnyFatal(outcomes[..attempted - 1]))
    ensures code < 256 ==> corrected == ExitStatus(code)
    ensures corrected == 0 <==> (suites.Ok? &&
      var outcomes := Outcomes(Synthesis.Runner, CommandLine.MakeCmdLine(flags, positional, objects), suites.value);
      forall k :: 0 <= k < |outcomes| ==> outcomes[k] == Passed)
  {
    var c := CommandLine.MakeCmdLine(flags, positional, objects);
    if suites.Err? {
      return 1, IntendedStatus(1), 0;
    }
    var outcomes := Outcomes(Synthesis.Runner, c, suites.value);
    code, attempted := Tally(outcomes);
    corrected := IntendedStatus(code);
    CountFailedZeroIff(outcomes);
  }

  /** The status a parent process sees for `os.Exit(code)`: POSIX keeps only
      the low 8 bits. */
  function ExitStatus(code: nat): (status: nat)
    ensures status < 256
    ensures code < 256 ==> status == code
  {
    code % 256
  }

  /** The status the driver evidently means to give: the number of failed
      suites, held at 255 so that it never wraps to 0. */
  function IntendedStatus(failures: nat): (status: nat)
    ensures status < 256
    ensures status == 0 <==> failures == 0
    ensures failures < 256 ==> status == failures
  {
    if failures < 255 then failures else 255
  }
}

/** Properties of the driver: when a suite passes, what reaches the
    compiler, what is cleaned up, and what the exit code counts. */
module OrchestratorFacts {
  import opened Results
  import Discovery
  import CommandLine
  import Synthesis
  import Runner
  import RunnerFacts
  import opened Orchestrator

  /** A suite passes exactly when its file is read, its tests are found,
      the runner is created and written, compiles, and exits with 0. */
  lemma SuitePassesIff(tmpl: Synthesis.Template, c: CommandLine.CmdLine, name: string, w: SuiteWorld)
    ensures RunSuite(tmpl, c, name, w).0 == Passed <==>
      && w.contents.Ok? && Discovery.FindTests(w.contents.value).Ok?
      && w.createOk && w.writeOk && w.compileStatus == 0 && w.runStatus == 0
  {
  }

  /** A suite ends the program exactly when its file cannot be read or a
      line of it is too long. */
  lemma SuiteFatalIff(tmpl: Synthesis.Template, c: CommandLine.CmdLine, name: string, w: SuiteWorld)
    ensures RunSuite(tmpl, c, name, w).0 == Fatal <==>
      w.contents.Err? || Discovery.FindTests(w.contents.value).Err?
  {
  }

  /** Once the runner source can be created and written, it holds the
      suite's text and test table, and the compiler is then run on
      `<suite>_runner.cpp` with the command line's flags and objects. */
  lemma CompilerSeesRunner(tmpl: Synthesis.Template, c: CommandLine.CmdLine, name: string,
                           t: Synthesis.Test, w: SuiteWorld)
    requires w.createOk && w.writeOk
    ensures var effects := BuildSuite(tmpl, c, name, t, w).1;
      var testout := name + "_runner.cpp";
      && |effects| >= 4
      && effects[0] == Created(testout)
      && effects[1] == Wrote(testout, Synthesis.Execute(tmpl, t))
      && effects[3] == Ran(c.cxx, c.cxxflags + ["-o", "test_runner", testout] + c.objects + c.ldflags)
  {
  }

  /** Whatever happens after the runner source is created, it is closed and
      removed, last of all. */
  lemma SourceRemovedLast(tmpl: Synthesis.Template, c: CommandLine.CmdLine, name: string,
                          t: Synthesis.Test, w: SuiteWorld)
    ensures var effects := BuildSuite(tmpl, c, name, t, w).1;
      var testout := CommandLine.RunnerSource(name);
      Created(testout) in effects ==>
        |effects| >= 3 && effects[|effects| - 2] == Closed(testout) && effects[|effects| - 1] == Removed(testout)
  {
  }

  /** The runner binary is removed exactly when it has been run. */
  lemma BinaryRemovedIffRun(tmpl: Synthesis.Template, c: CommandLine.CmdLine, name: string,
                            t: Synthesis.Test, w: SuiteWorld)
    ensures var effects := BuildSuite(tmpl, c, name, t, w).1;
      Removed(CommandLine.RunnerBinary) in effects <==> Ran(RunnerCommand, []) in effects
  {
    var testout := CommandLine.RunnerSource(name);
    assert CommandLine.RunnerBinary != testout by {
      if |testout| == 11 {
        assert testout[0] == '_';
      }
    }
  }

  /** End to end: when the runner compiles, the suite passes exactly when
      every `Assert` of every test holds and no test throws. */
  lemma SuitePassesIffTestsPass(tmpl: Synthesis.Template, c: CommandLine.CmdLine, name: string, w: SuiteWorld,
                                argv0: string, cases: seq<Runner.TestCase>)
    requires w.contents.Ok? && Discovery.FindTests(w.contents.value).Ok?
    requires w.createOk && w.writeOk && w.compileStatus == 0
    requires w.runStatus == Runner.RunnerMain(argv0, cases).exitCode
    ensures RunSuite(tmpl, c, name, w).0 == Passed <==> RunnerFacts.AllPass(cases)
  {
    SuitePassesIff(tmpl, c, name, w);
    RunnerFacts.ExitZeroIffAllPass(argv0, cases);
  }

  /** As written, `os.Exit(failures)` reports success to the parent once
      256 suites fail: the status keeps only the low 8 bits. */
  lemma ExitStatusWraps(outcomes: seq<SuiteOutcome>)
    requires CountFailed(outcomes) == 256
    ensures ExitStatus(CountFailed(outcomes)) == 0
    ensures exists k :: 0 <= k < |outcomes| && outcomes[k].Failed?
  {
    CountFailedZeroIff(outcomes);
  }

  /** With the status held at 255, the parent sees success exactly when no
      suite failed. */
  lemma IntendedStatusReportsFailures(outcomes: seq<SuiteOutcome>)
    ensures IntendedStatus(CountFailed(outcomes)) == 0 <==> forall k :: 0 <= k < |outcomes| ==> !outcomes[k].Failed?
  {
    CountFailedZeroIff(outcomes);
  }
}
