/** The generated runner program (the C++ half of the template,
    main.go:183-237): a `Testo` recorder counts every `Assert`, a failed
    `Assert` records the test, the check number and the message and ends
    that test, and `main` calls the tests in table order and reports.
    A test body is modelled as the sequence of its `Assert` calls and
    throws; what else the body does has no effect on the recorder. */
module Runner {
  import opened Results
  import Decimal

  /** One thing a test body does that the runner can observe. */
  datatype Step =
    | Check(cond: bool, msg: string)   // testo.Assert(cond, msg)
    | ThrowTestFailed                  // throws TestFailed{} itself
    | ThrowStd(what: string)           // throws a std::exception
    | ThrowUnknown                     // throws anything else

  /** A table row: the test's name and its body. */
  datatype TestCase = TestCase(name: string, body: seq<Step>)

  /** One recorded failure: the test, the number of the `Assert` (counted
      over the whole run, from 1), and the message. */
  datatype Failure = Failure(test: string, check: nat, msg: string)

  /** The recorder: failures so far, the number of `Assert` calls so far,
      and the name of the running test. */
  datatype Testo = Testo(msgs: seq<Failure>, ntests: nat, current: string)

  /** `Testo() : ntests(0){}`. */
  const Fresh: Testo := Testo([], 0, "")

  /** Failure numbers grow strictly and never pass the count of `Assert`
      calls. */
  predicate Valid(t: Testo) {
    && (forall i :: 0 <= i < |t.msgs| ==> 1 <= t.msgs[i].check <= t.ntests)
    && (forall i, j :: 0 <= i < j < |t.msgs| ==> t.msgs[i].check < t.msgs[j].check)
  }

  /** `Testo::Assert` (main.go:192-197): count the call; a false condition
      records a failure numbered by the new count and throws `TestFailed`
      (the `bool` result). */
  function Assert(t: Testo, b: bool, msg: string): (r: (Testo, bool))
    ensures r.0.ntests == t.ntests + 1 && r.0.current == t.current
    ensures r.1 <==> !b
    ensures b ==> r.0.msgs == t.msgs
    ensures !b ==> r.0.msgs == t.msgs + [Failure(t.current, r.0.ntests, msg)]
    ensures Valid(t) ==> Valid(r.0)
  {
    var n := t.ntests + 1;
    if b then (t.(ntests := n), false)
    else (t.(ntests := n, msgs := t.msgs + [Failure(t.current, n, msg)]), true)
  }

  /** An exception other than `TestFailed`. */
  datatype Escape = StdException(what: string) | UnknownException

  /** How a test body ends: it returns, a `TestFailed` ends it (thrown by a
      failed `Assert` or by the body itself, and caught by
      `catch(TestFailed)`), or another exception escapes it. */
  datatype BodyEnd = Returned(t: Testo) | Failed(t: Testo) | Escaped(t: Testo, e: Escape)

  /** Running one test body from recorder state `t`. */
  function RunBody(t: Testo, body: seq<Step>): (r: BodyEnd)
    ensures r.t.current == t.current
    ensures t.ntests <= r.t.ntests
    ensures |t.msgs| <= |r.t.msgs| && r.t.msgs[..|t.msgs|] == t.msgs
    decreases |body|
  {
    if |body| == 0 then Returned(t)
    else match body[0]
      case Check(b, m) =>
        var (t', threw) := Assert(t, b, m);
        if threw then Failed(t') else RunBody(t', body[1..])
      case ThrowTestFailed => Failed(t)
      case ThrowStd(w) => Escaped(t, StdException(w))
      case ThrowUnknown => Escaped(t, UnknownException)
  }

  /** The loop of the runner's `main` (main.go:212-225): set the current
      name, call the test, go on after a failed `Assert`, stop at the first
      other exception. */
  function RunTests(t: Testo, cases: seq<TestCase>): (r: (Testo, Option<Escape>))
    ensures t.ntests <= r.0.ntests
    ensures |t.msgs| <= |r.0.msgs| && r.0.msgs[..|t.msgs|] == t.msgs
    ensures r.1.Some? ==> |cases| > 0
    decreases |cases|
  {
    if |cases| == 0 then (t, None)
    else
      match RunBody(t.(current := cases[0].name), cases[0].body)
      case Returned(t1) => RunTests(t1, cases[1..])
      case Failed(t1) => RunTests(t1, cases[1..])
      case Escaped(t1, e) => (t1, Some(e))
  }

  /** What the runner prints and returns. */
  datatype Report = Report(exitCode: int, output: string)

  /** One line of the failure list. */
  function FailureLine(f: Failure): string {
    f.test + " #" + Decimal.NatToString(f.check) + ": \"" + f.msg + "\"\n"
  }

  function FailureLines(fs: seq<Failure>): string {
    if |fs| == 0 then "" else FailureLine(fs[0]) + FailureLines(fs[1..])
  }

  /** The runner's `main` (main.go:210-237): an escaping exception ends it
      at once with status 1; otherwise status 0 when nothing failed, and
      status 1 with the failure count over the `Assert` count and one line
      per failure when something did. */
  function RunnerMain(argv0: string, cases: seq<TestCase>): (r: Report)
    ensures r.exitCode == 0 || r.exitCode == 1
  {
    var (t, escape) := RunTests(Fresh, cases);
    match escape
    case Some(StdException(w)) => Report(1, "Unexpected exception: " + w + "\n")
    case Some(UnknownException) => Report(1, "Unexpected, unknown exception\n")
    case None =>
      if |t.msgs| == 0 then Report(0, argv0 + ": All tests pass.\n")
      else Report(1, argv0 + ": " + Decimal.NatToString(|t.msgs|) + "/" + Decimal.NatToString(t.ntests)
                     + " tests failed:\n" + FailureLines(t.msgs))
  }
}

/** A declarative account of a run, and the lemmas that the runner
    follows it. */
module RunnerFacts {
  import opened Results
  import Decimal
  import opened Runner

  /** A step the body gets past without leaving: a passing `Assert`. */
  predicate Passes(s: Step) {
    s.Check? && s.cond
  }

  /** Every test runs to its end: every step of every test passes. */
  predicate RunsToEnd(cases: seq<TestCase>) {
    forall k, j :: 0 <= k < |cases| && 0 <= j < |cases[k].body| ==> Passes(cases[k].body[j])
  }

  /** The first step of a body that does not pass, if any. */
  function FirstBad(body: seq<Step>): (r: Option<nat>)
    ensures r.None? <==> forall j :: 0 <= j < |body| ==> Passes(body[j])
    ensures r.Some? ==> r.value < |body| && !Passes(body[r.value])
    ensures r.Some? ==> forall j :: 0 <= j < r.value ==> Passes(body[j])
    decreases |body|
  {
    if |body| == 0 then None
    else if !Passes(body[0]) then Some(0)
    else match FirstBad(body[1..])
      case None => None
      case Some(i) => Some(i + 1)
  }

  /** The test ends at a failed `Assert`. */
  predicate FailsCheck(c: TestCase) {
    var b := FirstBad(c.body);
    b.Some? && c.body[b.value].Check?
  }

  /** An exception escapes the test. */
  predicate Escapes(c: TestCase) {
    var b := FirstBad(c.body);
    b.Some? && (c.body[b.value].ThrowStd? || c.body[b.value].ThrowUnknown?)
  }

  /** The test throws `TestFailed` itself and so ends early without a
      failed `Assert`. */
  predicate Abandons(c: TestCase) {
    var b := FirstBad(c.body);
    b.Some? && c.body[b.value].ThrowTestFailed?
  }

  /** What the runner counts as passing: no test fails an `Assert` or lets
      an exception escape. */
  predicate AllPass(cases: seq<TestCase>) {
    forall k :: 0 <= k < |cases| ==> !FailsCheck(cases[k]) && !Escapes(cases[k])
  }

  /** How many `Assert` calls the test makes. */
  function ChecksRun(body: seq<Step>): nat {
    match FirstBad(body)
    case None => |body|
    case Some(i) => if body[i].Check? then i + 1 else i
  }

  function EscapeOf(s: Step): Escape
    requires s.ThrowStd? || s.ThrowUnknown?
  {
    if s.ThrowStd? then StdException(s.what) else UnknownException
  }

  /** What one test body does to the recorder, read off its first step that
      does not pass. */
  function ExpectedEnd(t: Testo, body: seq<Step>): BodyEnd {
    match FirstBad(body)
    case None => Returned(t.(ntests := t.ntests + |body|))
    case Some(i) =>
      if body[i].Check? then
        Failed(t.(ntests := t.ntests + i + 1, msgs := t.msgs + [Failure(t.current, t.ntests + i + 1, body[i].msg)]))
      else if body[i].ThrowTestFailed? then Failed(t.(ntests := t.ntests + i))
      else Escaped(t.(ntests := t.ntests + i), EscapeOf(body[i]))
  }

  /** The failure a test records when its last `Assert` is number `n`. */
  function CaseFailure(c: TestCase, n: nat): seq<Failure> {
    if FailsCheck(c) then [Failure(c.name, n, c.body[FirstBad(c.body).value].msg)] else []
  }

  /** The failures a run without escapes records, numbering `Assert` calls
      from `base + 1`. */
  function ExpectedFailures(cases: seq<TestCase>, base: nat): seq<Failure>
    decreases |cases|
  {
    if |cases| == 0 then []
    else
      var n := base + ChecksRun(cases[0].body);
      CaseFailure(cases[0], n) + ExpectedFailures(cases[1..], n)
  }

  /** All `Assert` calls of a run without escapes. */
  function TotalChecks(cases: seq<TestCase>): nat
    decreases |cases|
  {
    if |cases| == 0 then 0 else ChecksRun(cases[0].body) + TotalChecks(cases[1..])
  }

  /** Names of the failing tests, in table order. */
  function FailingNames(cases: seq<TestCase>): seq<string>
    decreases |cases|
  {
    if |cases| == 0 then []
    else (if FailsCheck(cases[0]) then [cases[0].name] else []) + FailingNames(cases[1..])
  }

  function TestsOf(fs: seq<Failure>): seq<string>
    decreases |fs|
  {
    if |fs| == 0 then [] else [fs[0].test] + TestsOf(fs[1..])
  }

  /** A body runs as its first failing step says. */
  lemma {:induction false} BodyRun(t: Testo, body: seq<Step>)
    ensures RunBody(t, body) == ExpectedEnd(t, body)
    decreases |body|
  {
    if |body| > 0 && Passes(body[0]) {
      var t' := Assert(t, true, body[0].msg).0;
      BodyRun(t', body[1..]);
      assert t'.(ntests := t'.ntests + |body| - 1) == t.(ntests := t.ntests + |body|);
      match FirstBad(body[1..])
      case None =>
      case Some(i) =>
        assert body[1..][i] == body[i + 1];
    }
  }

  /** One test that does not escape: it counts its `Assert` calls and
      records its failure, if any. */
  lemma CaseWithoutEscape(t: Testo, c: TestCase)
    requires !Escapes(c)
    ensures !RunBody(t.(current := c.name), c.body).Escaped?
    ensures RunBody(t.(current := c.name), c.body).t.ntests == t.ntests + ChecksRun(c.body)
    ensures RunBody(t.(current := c.name), c.body).t.msgs == t.msgs + CaseFailure(c, t.ntests + ChecksRun(c.body))
  {
    BodyRun(t.(current := c.name), c.body);
  }

  /** The first test's part of the expected failures and checks. */
  lemma ExpectedCons(cases: seq<TestCase>, base: nat)
    requires |cases| > 0
    ensures var n := base + ChecksRun(cases[0].body);
      && ExpectedFailures(cases, base) == CaseFailure(cases[0], n) + ExpectedFailures(cases[1..], n)
      && TotalChecks(cases) == ChecksRun(cases[0].body) + TotalChecks(cases[1..])
  {
  }

  /** After a test that does not escape, the run goes on with the rest. */
  lemma RunTestsCons(t: Testo, cases: seq<TestCase>)
    requires |cases| > 0
    requires !RunBody(t.(current := cases[0].name), cases[0].body).Escaped?
    ensures RunTests(t, cases) == RunTests(RunBody(t.(current := cases[0].name), cases[0].body).t, cases[1..])
  {
  }

  /** No test lets an exception escape, stated test by test. */
  predicate NoEscapes(cases: seq<TestCase>)
    decreases |cases|
  {
    |cases| == 0 || (!Escapes(cases[0]) && NoEscapes(cases[1..]))
  }

  lemma {:induction false} NoEscapesIff(cases: seq<TestCase>)
    ensures NoEscapes(cases) <==> forall k :: 0 <= k < |cases| ==> !Escapes(cases[k])
    decreases |cases|
  {
    if |cases| > 0 {
      NoEscapesIff(cases[1..]);
      assert forall k :: 1 <= k < |cases| ==> cases[k] == cases[1..][k - 1];
    }
  }

  /** The expected failures appended to those already recorded, test by
      test. */
  function ExpectedMsgs(msgs: seq<Failure>, cases: seq<TestCase>, base: nat): seq<Failure>
    decreases |cases|
  {
    if |cases| == 0 then msgs
    else
      var n := base + ChecksRun(cases[0].body);
      ExpectedMsgs(msgs + CaseFailure(cases[0], n), cases[1..], n)
  }

  lemma {:induction false} ExpectedMsgsAppend(msgs: seq<Failure>, cases: seq<TestCase>, base: nat)
    ensures ExpectedMsgs(msgs, cases, base) == msgs + ExpectedFailures(cases, base)
    decreases |cases|
  {
    if |cases| == 0 {
      assert msgs + [] == msgs;
    } else {
      var n := base + ChecksRun(cases[0].body);
      var head := CaseFailure(cases[0], n);
      ExpectedMsgsAppend(msgs + head, cases[1..], n);
      ExpectedCons(cases, base);
      assert msgs + head + ExpectedFailures(cases[1..], n) == msgs + (head + ExpectedFailures(cases[1..], n));
    }
  }

  /** One step of the expected failures: the first test's, then the rest. */
  lemma ExpectedMsgsCons(msgs: seq<Failure>, cases: seq<TestCase>, base: nat)
    requires |cases| > 0
    ensures var n := base + ChecksRun(cases[0].body);
            ExpectedMsgs(msgs, cases, base) == ExpectedMsgs(msgs + CaseFailure(cases[0], n), cases[1..], n)
  {
  }

  lemma {:induction false} RunMsgs(t: Testo, cases: seq<TestCase>)
    requires NoEscapes(cases)
    ensures RunTests(t, cases).0.msgs == ExpectedMsgs(t.msgs, cases, t.ntests)
    decreases |cases|
  {
    if |cases| > 0 {
      var c := cases[0];
      var t' := RunBody(t.(current := c.name), c.body).t;
      CaseWithoutEscape(t, c);
      RunTestsCons(t, cases);
      RunMsgs(t', cases[1..]);
      ExpectedMsgsCons(t.msgs, cases, t.ntests);
    }
  }

  lemma {:induction false} RunCounts(t: Testo, cases: seq<TestCase>)
    requires NoEscapes(cases)
    ensures RunTests(t, cases).1 == None
    ensures RunTests(t, cases).0.ntests == t.ntests + TotalChecks(cases)
    decreases |cases|
  {
    if |cases| > 0 {
      var c := cases[0];
      CaseWithoutEscape(t, c);
      RunTestsCons(t, cases);
      RunCounts(RunBody(t.(current := c.name), c.body).t, cases[1..]);
      ExpectedCons(cases, t.ntests);
    }
  }

  /** A run without escapes records exactly the expected failures and
      counts every `Assert`. */
  lemma RunWithoutEscapes(t: Testo, cases: seq<TestCase>)
    requires forall k :: 0 <= k < |cases| ==> !Escapes(cases[k])
    ensures RunTests(t, cases).1 == None
    ensures RunTests(t, cases).0.msgs == t.msgs + ExpectedFailures(cases, t.ntests)
    ensures RunTests(t, cases).0.ntests == t.ntests + TotalChecks(cases)
  {
    NoEscapesIff(cases);
    RunCounts(t, cases);
    RunMsgs(t, cases);
    ExpectedMsgsAppend(t.msgs, cases, t.ntests);
  }

  /** The failures name the failing tests, in table order, one each. */
  lemma {:induction false} FailuresNameFailingTests(cases: seq<TestCase>, base: nat)
    ensures TestsOf(ExpectedFailures(cases, base)) == FailingNames(cases)
    decreases |cases|
  {
    if |cases| > 0 {
      var n := base + ChecksRun(cases[0].body);
      var first := CaseFailure(cases[0], n);
      assert ExpectedFailures(cases, base) == first + ExpectedFailures(cases[1..], n);
      FailuresNameFailingTests(cases[1..], n);
      TestsOfAppend(first, ExpectedFailures(cases[1..], n));
      TestsOfCaseFailure(cases[0], n);
    }
  }

  lemma TestsOfCaseFailure(c: TestCase, n: nat)
    ensures TestsOf(CaseFailure(c, n)) == if FailsCheck(c) then [c.name] else []
  {
  }

  lemma {:induction false} TestsOfAppend(a: seq<Failure>, b: seq<Failure>)
    ensures TestsOf(a + b) == TestsOf(a) + TestsOf(b)
    decreases |a|
  {
    if |a| == 0 {
      assert a + b == b;
    } else {
      assert (a + b)[1..] == a[1..] + b;
      TestsOfAppend(a[1..], b);
    }
  }

  /** Nothing is recorded exactly when no test fails an `Assert`. */
  lemma {:induction false} NoFailuresIff(cases: seq<TestCase>, base: nat)
    ensures ExpectedFailures(cases, base) == [] <==> forall k :: 0 <= k < |cases| ==> !FailsCheck(cases[k])
    decreases |cases|
  {
    if |cases| > 0 {
      NoFailuresIff(cases[1..], base + ChecksRun(cases[0].body));
      if forall k :: 0 <= k < |cases[1..]| ==> !FailsCheck(cases[1..][k]) {
        forall k | 1 <= k < |cases|
          ensures !FailsCheck(cases[k])
        {
          assert cases[k] == cases[1..][k - 1];
        }
      } else {
        var k :| 0 <= k < |cases[1..]| && FailsCheck(cases[1..][k]);
        assert cases[k + 1] == cases[1..][k];
      }
    }
  }

  /** An escaping test ends the run: it reports that test's exception,
      whatever follows it, when no earlier test escaped. */
  lemma {:induction false} EscapeEndsRun(t: Testo, cases: seq<TestCase>, k: nat)
    requires k < |cases| && Escapes(cases[k])
    requires forall j :: 0 <= j < k ==> !Escapes(cases[j])
    ensures RunTests(t, cases) == RunTests(t, cases[..k + 1])
    ensures RunTests(t, cases).1 == Some(EscapeOf(cases[k].body[FirstBad(cases[k].body).value]))
    decreases k
  {
    var c := cases[0];
    var t0 := t.(current := c.name);
    BodyRun(t0, c.body);
    if k > 0 {
      var t1 := RunBody(t0, c.body).t;
      EscapeEndsRun(t1, cases[1..], k - 1);
      assert cases[..k + 1][1..] == cases[1..][..k];
    }
  }

  /** Tests after an escaping one never run: changing them changes
      nothing. */
  lemma LaterTestsDoNotRun(t: Testo, cases: seq<TestCase>, k: nat, later: seq<TestCase>)
    requires k < |cases| && Escapes(cases[k])
    requires forall j :: 0 <= j < k ==> !Escapes(cases[j])
    ensures RunTests(t, cases[..k + 1] + later) == RunTests(t, cases)
  {
    var cs := cases[..k + 1] + later;
    forall j | 0 <= j < k
      ensures !Escapes(cs[j])
    {
      assert cs[j] == cases[j];
    }
    assert cs[k] == cases[k];
    EscapeEndsRun(t, cs, k);
    EscapeEndsRun(t, cases, k);
    assert cs[..k + 1] == cases[..k + 1];
  }

  /** Some test escapes, or none does. */
  lemma FirstEscape(cases: seq<TestCase>) returns (k: nat)
    requires exists j :: 0 <= j < |cases| && Escapes(cases[j])
    ensures k < |cases| && Escapes(cases[k])
    ensures forall j :: 0 <= j < k ==> !Escapes(cases[j])
  {
    var j :| 0 <= j < |cases| && Escapes(cases[j]);
    k := j;
    while exists i :: 0 <= i < k && Escapes(cases[i])
      invariant k < |cases| && Escapes(cases[k])
      decreases k
    {
      var i :| 0 <= i < k && Escapes(cases[i]);
      k := i;
    }
  }

  /** Every test runs to its end exactly when none fails an `Assert`, lets
      an exception escape, or throws `TestFailed` itself. */
  lemma RunsToEndIff(cases: seq<TestCase>)
    ensures RunsToEnd(cases) <==>
      forall k :: 0 <= k < |cases| ==> !FailsCheck(cases[k]) && !Escapes(cases[k]) && !Abandons(cases[k])
  {
    if !RunsToEnd(cases) {
      var k, j :| 0 <= k < |cases| && 0 <= j < |cases[k].body| && !Passes(cases[k].body[j]);
      assert FirstBad(cases[k].body).Some?;
    }
  }

  /** The runner exits with 0 exactly when no `Assert` that runs fails and
      no test lets an exception escape. */
  lemma ExitZeroIffAllPass(argv0: string, cases: seq<TestCase>)
    ensures RunnerMain(argv0, cases).exitCode == 0 <==> AllPass(cases)
  {
    if exists j :: 0 <= j < |cases| && Escapes(cases[j]) {
      var k := FirstEscape(cases);
      EscapeEndsRun(Fresh, cases, k);
    } else {
      RunWithoutEscapes(Fresh, cases);
      NoFailuresIff(cases, 0);
      assert Fresh.msgs + ExpectedFailures(cases, 0) == ExpectedFailures(cases, 0);
    }
  }

  /** When no test throws, the report names the failing tests in table
      order and counts every `Assert` call of the run. */
  lemma ReportWithoutEscapes(argv0: string, cases: seq<TestCase>)
    requires forall k :: 0 <= k < |cases| ==> !Escapes(cases[k])
    requires !AllPass(cases)
    ensures var fs := ExpectedFailures(cases, 0);
      && TestsOf(fs) == FailingNames(cases)
      && RunnerMain(argv0, cases) == Report(1, argv0 + ": " + Decimal.NatToString(|fs|) + "/"
           + Decimal.NatToString(TotalChecks(cases)) + " tests failed:\n" + FailureLines(fs))
  {
    RunWithoutEscapes(Fresh, cases);
    assert Fresh.msgs + ExpectedFailures(cases, 0) == ExpectedFailures(cases, 0);
    FailuresNameFailingTests(cases, 0);
    ExitZeroIffAllPass(argv0, cases);
  }

  /** A run keeps the recorder valid. */
  lemma {:induction false} RunKeepsValid(t: Testo, cases: seq<TestCase>)
    requires Valid(t)
    ensures Valid(RunTests(t, cases).0)
    decreases |cases|
  {
    if |cases| > 0 {
      var t0 := t.(current := cases[0].name);
      BodyKeepsValid(t0, cases[0].body);
      match RunBody(t0, cases[0].body)
      case Returned(t1) => RunKeepsValid(t1, cases[1..]);
      case Failed(t1) => RunKeepsValid(t1, cases[1..]);
      case Escaped(t1, e) =>
    }
  }

  lemma {:induction false} BodyKeepsValid(t: Testo, body: seq<Step>)
    requires Valid(t)
    ensures Valid(RunBody(t, body).t)
    decreases |body|
  {
    if |body| > 0 && body[0].Check? {
      var (t', threw) := Assert(t, body[0].cond, body[0].msg);
      if !threw {
        BodyKeepsValid(t', body[1..]);
      }
    }
  }

  /** Exit status 0 does not mean every test ran to its end: a test that
      throws `TestFailed` itself ends quietly, and the `Assert`s after the
      throw never run. */
  lemma AbandonedTestPasses(argv0: string, name: string, msg: string)
    ensures var cases := [TestCase(name, [ThrowTestFailed, Check(false, msg)])];
      && RunnerMain(argv0, cases).exitCode == 0
      && !RunsToEnd(cases)
  {
    var cases := [TestCase(name, [ThrowTestFailed, Check(false, msg)])];
    assert !Passes(cases[0].body[0]);
    assert FirstBad(cases[0].body) == Some(0);
    ExitZeroIffAllPass(argv0, cases);
  }
}
