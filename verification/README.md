# runt, modelled in Dafny

`runt` is a small generator of test runners for C++. For every suite file
`test/test_*.cpp` it finds the test functions (lines matching
`void (test_[[:word:]]+).*`), renders a runner program from a template
(the suite's own text, a table of the found tests and a tiny
`Testo`/`Assert` framework with a `main`), compiles that runner together
with the object files under `build/`, runs it, and counts the suites that
failed; the count is the process's exit code.

This project models that pipeline as pure functions and proves what each
stage promises:

| file | module(s) | what it models |
|---|---|---|
| `results.dfy` | `Results` | `Option` and `Result`, used for every error path |
| `decimal.dfy` | `Decimal` | rendering a count in decimal (`{{len .Tests}}`) and reading it back |
| `line_reader.dfy` | `LineReader` | `bufio.Reader.ReadLine` over an in-memory buffer, including the "line too long" case, and its relation to a plain split at `'\n'` |
| `discovery.dfy` | `Discovery`, `DiscoveryFacts` | the test-name regular expression, `FindSubmatch`, and `findTests` |
| `find_test.dfy` | `FindTestVectors` | the vectors of `TestFindTests` and `slicesEqual` |
| `commandline.dfy` | `CommandLine`, `CommandLineFacts` | `strings.Fields`, the `cmdline` record, the compiler's argument vector |
| `synthesis.dfy` | `Synthesis`, `SynthesisFacts` | the template, `Execute`, and a reader that recovers the suite from the rendered runner |
| `runner.dfy` | `Runner`, `RunnerFacts` | the generated C++ runner: `Testo::Assert`, the test loop, the catch clauses, the report and the exit code |
| `orchestrator.dfy` | `Orchestrator`, `OrchestratorFacts` | `runSuite`, `readTests`, the suite loop of `main` and `os.Exit` |

The outside world of one suite (the file's contents or the read error,
whether creating and writing the runner source succeeds, the compiler's and
the runner's exit statuses) is a `SuiteWorld` value, and `runSuite`
returns its outcome together with the list of effects it performs
(create, write, print, run, close, remove), in order. Glob results are
inputs. `os.Exit(1)` and `panic` inside `readTests`/`findTests` become the
`Fatal` outcome, which stops the suite loop.

Notes on what the code does:
- a failure to create or write the runner source is returned as an error
  by `runSuite`, so it counts as one failed suite and the loop goes on; it
  does not end the program;
- in the generated runner an exception other than `TestFailed` makes
  `main` print a message and return 1 at once; the remaining tests do not
  run and the message is not added to the failure list;
- the "n" of the report line `k/n tests failed` counts `Assert` calls, and
  `k` counts failed `Assert`s (at most one per test, since a failed
  `Assert` throws `TestFailed` and ends its test unless the body catches
  it itself);
- a test body that throws `TestFailed` itself ends without a record: the
  runner's `catch(TestFailed)` swallows it, the test counts as passing and
  its later `Assert`s never run.

## Model

| member | source | states |
|---|---|---|
| LineReader.FirstNewline | main.go:152 | the first `'\n'` at or after a position, or the end of the window if there is none; nothing before it is a newline |
| LineReader.ReadLine | main.go:152-161 | one `ReadLine` call with a buffer of `size` bytes: end of input exactly at the end; otherwise a line without `'\n'`, shorter than the buffer, taken from the text at the position, after which reading resumes past the newline; that line ends at a `'\n'` when reading resumes past one; or "too long" exactly when the buffer fills without a newline |
| LineReader.ReadLineWindow | main.go:152-161 | the line returned is the text up to the first newline when that is inside the buffer, and the call reports "too long" otherwise |
| LineReader.ReadLineIsFirstLine | main.go:152-161 | one `ReadLine` returns the first `'\n'`-separated line of the rest of the text, and leaves the reader at the remaining lines, unless that line does not fit in the buffer |
| LineReader.ReadAll | main.go:149-161 | the read loop, when it succeeds, yields lines that fit in the buffer and hold no `'\n'` |
| LineReader.ReadAllIsLines | main.go:149-161 | the read loop from any position yields exactly the `'\n'`-separated lines of the rest, or fails with "line too long" exactly when one of them does not fit |
| LineReader.ReadAllFromStart | main.go:149-161 | the same for the whole suite text |
| LineReader.LinesHaveNoNewline | main.go:152 | no line handed to the matcher contains `'\n'` |
| LineReader.JoinLinesOfLines | main.go:149-152 | joining the lines back with `'\n'` gives the text again, with a final newline added if it lacked one |
| LineReader.LinesOfJoinLines | main.go:149-152 | splitting newline-terminated lines gives back exactly those lines |
| LineReader.LinesOfUnterminated | main.go:149-152 | a last line without a newline is still read as a line |
| LineReader.LinesFromJoinLines | main.go:149-152 | splitting after any prefix recovers the joined lines and the unterminated tail |
| Discovery.WordRunEnd | main.go:144 | the end of the longest run of `[[:word:]]` characters from a position |
| Discovery.FirstMatchFrom | main.go:144 | the leftmost position from which `void test_` plus a word character matches, or none |
| Discovery.FindSubmatch | main.go:163-165 | no match means no position matches; a leftmost match's capture is returned; every capture is a test name (`test_` followed by word characters) |
| Discovery.CaptureIsTestName | main.go:144 | the captured group is `test_` followed by one or more word characters |
| Discovery.FindTestsWithBuffer | main.go:143-168 | `findTests` succeeds exactly when every line fits in the reader's buffer, and then returns the captures of the matching lines, in order |
| Discovery.FindTests | main.go:143-168 | with the 4096-byte buffer of `bufio.NewReader`: `findTests` returns normally exactly when every line fits, and then returns the captures of the matching lines, in order |
| DiscoveryFacts.MarkerAtStart | main.go:144 | a line `void test_<word>` followed by a non-word character (or nothing) yields `test_<word>` |
| DiscoveryFacts.NoMatchWithoutV | main.go:144 | a line without the letter `v` never matches |
| DiscoveryFacts.FindSubmatchFound | main.go:163 | `FindSubmatch` finds something exactly when some position matches, and then it is the leftmost match's capture |
| DiscoveryFacts.TextAfterCaptureIgnored | main.go:144 | anything appended after a capture that is already followed by a non-word character does not change the result (the trailing `.*`) |
| DiscoveryFacts.TrailingCarriageReturn | main.go:144 | a trailing `'\r'` on a line never changes what is captured |
| DiscoveryFacts.PresentAppend | main.go:163-164 | collecting captures distributes over concatenation of match results |
| DiscoveryFacts.NamesAppend | main.go:151-166 | the names of two blocks of lines are the names of the first followed by those of the second |
| DiscoveryFacts.NamesOfOneLine | main.go:163-164 | one line contributes its capture, or nothing |
| DiscoveryFacts.NamesFromResults | main.go:163-164 | the names are the present entries of the per-line results |
| DiscoveryFacts.NamesCons | main.go:151-166 | the first line's capture comes first, then the rest's |
| DiscoveryFacts.NamesWithoutMatches | main.go:163-167 | lines without any match give no names |
| DiscoveryFacts.DuplicatesKept | main.go:163-164 | a test declared twice is listed twice (no deduplication) |
| DiscoveryFacts.NamesComeFromLines | main.go:163-164 | every found name is the capture of some line |
| DiscoveryFacts.NamesAreTestNames | main.go:144 | every found name has the form `test_<word>` |
| DiscoveryFacts.FindTestsOfEmpty | main.go:150-153 | an empty suite has no tests and no error |
| DiscoveryFacts.FindTestsWithoutMatches | main.go:163-167 | a readable suite without matching lines has no tests |
| DiscoveryFacts.LongLineFails | main.go:158-161 | a single line at least as long as the buffer makes `findTests` fail, wherever it is |
| FindTestVectors.SlicesEqual | find_test.go:33-43 | `slicesEqual` is true exactly when the lengths agree and every element agrees, that is, exactly when the slices are equal |
| FindTestVectors.OneTestLine | find_test.go:14-15 | a one-line suite `void test_<word><tail>` yields just `test_<word>` |
| FindTestVectors.FrobVector | find_test.go:14 | `void test_frob` yields `[test_frob]` |
| FindTestVectors.FrobParametersVector | find_test.go:15 | `void test_frob(xyz)` yields `[test_frob]` |
| FindTestVectors.TestLine | find_test.go:17-22 | a line that is exactly `void test_<word>` yields `test_<word>` |
| FindTestVectors.VectorTestLine | find_test.go:17-22 | each of the lines `void test_cat`, `void test_dog`, `void test_hamster`, `void test_gopher` yields `test_` and its word |
| FindTestVectors.MultiLineResults | find_test.go:16-22 | the present captures of the seven lines' results, in order |
| FindTestVectors.MultiLineMatches | find_test.go:16-22 | the seven lines of the third vector yield cat, dog, hamster, gopher; `int test_robot`, the blank line and `1 + 2 = 3` yield nothing |
| FindTestVectors.MultiLineVector | find_test.go:16-22 | the third vector's text (its lines joined by `'\n'`, the last without one) yields `[test_cat, test_dog, test_hamster, test_gopher]` |
| Decimal.NatToString | main.go:204 | the count is written as a non-empty run of digits, with no leading zero except for 0 itself |
| Decimal.ParseNat | main.go:204 | a string parses as a number exactly when it is a non-empty run of digits |
| Decimal.ParseNatToString | main.go:204 | reading back the rendered count gives the count |
| Decimal.ValueOfNatToString | main.go:204 | the digits' value is the count |
| Decimal.NatToStringInjective | main.go:204 | different counts are rendered differently |
| CommandLine.FieldEnd | main.go:42-43 | the end of the run of non-space characters from a position |
| CommandLine.Fields | main.go:42-43 | `strings.Fields` returns non-empty fields without white space (maximality is stated by `FieldsOfSpaced` and `SpacedFields`) |
| CommandLine.MakeCmdLine | main.go:41-49 | the compiler is the `-cxx` flag, the flag lists are exactly the fields of `-cxxflags` and `-ldflags`, the positional arguments come first among the objects, followed by the `build/*.o` matches when the glob succeeds and by nothing when it fails |
| CommandLine.RunnerSource | main.go:76 | the runner source's name starts with the suite's name and ends with `_runner.cpp` |
| CommandLine.CompileArgs | main.go:91-97 | the argument vector is the compiler flags, `-o test_runner <source>`, the objects, then the link flags |
| CommandLine.SplitArgs | main.go:91-97 | reading an argument vector back into its parts accounts for every argument |
| CommandLineFacts.FieldEndOfField | main.go:42-43 | a field followed by white space ends where the field ends |
| CommandLineFacts.FieldsOfJoin | main.go:42-43 | splitting fields joined with single spaces gives back the fields |
| CommandLineFacts.FieldsOfSpaced | main.go:42-43 | non-empty white-space-free pieces separated by non-empty white space, with any white space before and after, split back into exactly those pieces |
| CommandLineFacts.SpacedFields | main.go:42-43 | every string is its fields laid out between white-space gaps, non-empty between fields: the fields are maximal runs of non-space characters |
| CommandLineFacts.FieldsKeepNonSpace | main.go:42-43 | the fields, put together, are exactly the non-space characters, in order |
| CommandLineFacts.FieldsOfBlank | main.go:42-43 | an empty or all-white-space flag gives no fields |
| CommandLineFacts.DefaultFlagsAreEmpty | main.go:20-22 | with default flags the compiler is `clang++` and both flag lists are empty |
| CommandLineFacts.ArgPositions | main.go:91-97 | where each part of the compiler's argument vector sits |
| CommandLineFacts.SplitArgVector | main.go:91-97 | the argument vector can be split back into the flags, the source, the objects and the link flags |
| CommandLineFacts.FlagsReachCompiler | main.go:41-97 | each field of `-cxxflags` reaches the compiler, in order, at the front of its arguments |
| Synthesis.Execute | main.go:202-208 | the rendered runner is the template's preamble, the suite text, the test table and the entry point, in that order |
| Synthesis.Entry | main.go:206 | a row holds the name twice: right after the row's opening text and right before its closing text, and is the row frame plus twice the name long |
| Synthesis.Table | main.go:204-208 | the table opens with the array declaration and the count of tests, and ends with the closing braces |
| SynthesisFacts.EntriesLength | main.go:205-207 | the rows take one row frame per test and every name twice |
| Synthesis.ParseEntries | main.go:205-207 | reading back table rows only ever yields quotable names |
| Synthesis.ParseRows | main.go:204-208 | reading back a table yields as many names as its declared size |
| Synthesis.ParseRunner | main.go:202-208 | reading back a runner yields a suite text of the given length |
| SynthesisFacts.RunnerIsReadable | main.go:175-238 | the runner template's pieces let the table be read back: the name in each row is closed by a quote and the count is followed by a non-digit |
| SynthesisFacts.EntryReadBack | main.go:206 | one rendered row `make_tuple(std::string("<name>"), <name>),` gives back its name |
| SynthesisFacts.EntriesRoundTrip | main.go:205-207 | the rows rendered by `{{range .Tests}}` give back the test list |
| SynthesisFacts.EntriesAppend | main.go:205-207 | rendering rows distributes over concatenation of test lists |
| SynthesisFacts.CountReadBack | main.go:204 | the array size written into the table is `len .Tests` and can be read back |
| SynthesisFacts.RowsRoundTrip | main.go:204-208 | the rows after the count give back exactly that many names |
| SynthesisFacts.TableRoundTrip | main.go:204-208 | the whole rendered table gives back the test list |
| SynthesisFacts.ExecuteFramed | main.go:202-208 | the rendered runner holds the suite text right after the preamble and the table between it and the entry point |
| SynthesisFacts.ParseExecuted | main.go:202-208 | a runner whose table reads back correctly gives back the suite text and test list |
| SynthesisFacts.ExecuteRoundTrip | main.go:202-208 | every suite whose test names are quotable can be recovered from its rendered runner |
| SynthesisFacts.TestNameIsQuotable | main.go:206 | a discovered test name can be placed between quotes unchanged |
| SynthesisFacts.SuiteRunnerRoundTrip | main.go:68-87 | the runner rendered for a suite whose tests were found contains that suite's text and exactly its test list |
| Runner.Assert | main.go:192-197 | every call counts; a false condition records the running test, the new count and the message and ends the test; a true one records nothing; numbering stays valid |
| Runner.RunnerMain | main.go:210-237 | the runner's exit code is 0 or 1 |
| Runner.RunBody | main.go:213-217 | running one test body keeps the current test, never lowers the check count, and only appends to the failures |
| Runner.RunTests | main.go:212-225 | the test loop never lowers the check count, only appends to the failures, and reports an escaping exception only when some test ran |
| RunnerFacts.BodyRun | main.go:213-217 | a test body runs its checks up to the first failing check or throw and ends as returned, failed or escaped accordingly |
| RunnerFacts.CaseWithoutEscape | main.go:212-217 | a test without an escaping exception adds its checks to the count and its one failure, if any, to the messages |
| RunnerFacts.RunTestsCons | main.go:212-225 | the loop runs the first test and then the rest from the state it leaves |
| RunnerFacts.RunMsgs | main.go:212-225 | without escaping exceptions the messages are the expected failures of all tests, in table order |
| RunnerFacts.RunCounts | main.go:212-225 | without escaping exceptions every test runs and the count is the total number of checks run |
| RunnerFacts.RunWithoutEscapes | main.go:212-225 | from any state: the loop finishes, appends the expected failures and adds the total number of checks |
| RunnerFacts.FailuresNameFailingTests | main.go:195 | the recorded failures name exactly the failing tests, in order, once each |
| RunnerFacts.TestsOfCaseFailure | main.go:195 | a test contributes its name to the failures exactly when one of its checks fails |
| RunnerFacts.NoFailuresIff | main.go:227 | the failure list is empty exactly when no test has a failing check |
| RunnerFacts.EscapeEndsRun | main.go:218-224 | the first escaping exception ends the loop with that exception; later tests do not matter |
| RunnerFacts.LaterTestsDoNotRun | main.go:218-224 | tests after the first escaping one never run |
| RunnerFacts.RunsToEndIff | main.go:213-224 | every step of every test passes exactly when no test fails a check, lets an exception escape, or throws `TestFailed` itself |
| RunnerFacts.AbandonedTestPasses | main.go:216-217 | a test that throws `TestFailed` itself before a failing `Assert` leaves the runner's exit code at 0 |
| RunnerFacts.ExitZeroIffAllPass | main.go:210-237 | the runner exits 0 exactly when no test fails an `Assert` or lets an exception escape |
| RunnerFacts.ReportWithoutEscapes | main.go:232-236 | a failed run prints `<argv0>: k/n tests failed:` with k the failures and n the checks, then one line per failure, naming the failing tests |
| RunnerFacts.RunKeepsValid | main.go:193-195 | failure numbers stay increasing and within the check count over the whole loop |
| RunnerFacts.BodyKeepsValid | main.go:193-195 | the same over one test body |
| Orchestrator.LoadSuite | main.go:68-72 | a suite loads exactly when its file can be read and its tests found, and then its text is the file's contents |
| Orchestrator.RunSuite | main.go:67-125 | a suite ends the program exactly when it cannot be loaded, and then before any effect |
| Orchestrator.BuildSuite | main.go:76-124 | building and running a loaded suite never ends the program |
| Orchestrator.Tally | main.go:57-64 | the suite loop's exit code is the number of failed suites, or 1 at the first suite that ends the program, after which no suite is attempted |
| Orchestrator.CountFailed | main.go:57-63 | at most one failure is counted per suite |
| Orchestrator.CountFailedAppend | main.go:57-63 | failure counts add up over consecutive suites |
| Orchestrator.CountFailedZeroIff | main.go:57-63 | no failures are counted exactly when no suite failed |
| Orchestrator.Drive | main.go:34-64 | `main`: a failed suite glob exits 1 without running a suite; otherwise the exit code is the failure tally or 1 on a fatal suite; it also returns the corrected status of `IntendedStatus`, which equals the status of `os.Exit` below 256 failures and is 0 exactly when every suite passed |
| Orchestrator.ExitStatus | main.go:64 | the status a parent process sees from `os.Exit(failures)`: below 256, equal to the count while it is below 256 |
| Orchestrator.IntendedStatus | main.go:64 | a status below 256 that is 0 exactly when no suite failed |
| OrchestratorFacts.SuitePassesIff | main.go:67-125 | a suite passes exactly when it is read, its tests are found, the runner source is created and written, and both the compiler and the runner exit 0 |
| OrchestratorFacts.SuiteFatalIff | main.go:127-161 | a suite ends the program exactly when its file cannot be read or a line is too long |
| OrchestratorFacts.CompilerSeesRunner | main.go:76-106 | the runner source `<suite>_runner.cpp` is created, receives the rendered runner, and is handed to the compiler as `cxxflags -o test_runner <source> objects ldflags` |
| OrchestratorFacts.SourceRemovedLast | main.go:81-82 | once the runner source is created, the last two effects are closing and removing it, on every path |
| OrchestratorFacts.BinaryRemovedIffRun | main.go:115-122 | `test_runner` is removed exactly when it was run |
| OrchestratorFacts.SuitePassesIffTestsPass | main.go:115-122 | once the runner is built, the suite passes exactly when all its tests pass |
| OrchestratorFacts.ExitStatusWraps | main.go:64 | with 256 failed suites the status seen by the parent is 0, although suites failed |
| OrchestratorFacts.IntendedStatusReportsFailures | main.go:64 | the corrected status is 0 exactly when no suite failed |

## Left out

- Flag parsing (`flag.Parse`, `flag.Usage`): the flag values and the positional arguments are inputs.
- `filepath.Glob`: its matches (in whatever order it returns them) or its error are inputs.
- File I/O (`os.Open`, `ioutil.ReadAll`, `os.Create`, `Close`, `os.Remove`): their results are fields of `SuiteWorld`; their effects are listed, not performed.
- The partial runner source left behind after a failed `Execute` is not modelled; only that it is closed and removed.
- `exec.Command(...).Run()`: the compiler's and the runner's exit statuses are inputs; a command that cannot be started counts as a non-zero status. Stream pass-through is not modelled.
- The `-verbose` printing and the messages written to standard error are not modelled; the `Running <suite>` line is an effect.
- The `text/template` and `regexp` engines: the one template and the one pattern are modelled directly. `template.Must` and `panic("Bad regex")` cannot fail for these constants and are left out.
- `bufio.ReadLine` drops a `"\r"` before `"\n"`; this is not modelled (a trailing `'\r'` is shown never to change what is captured). Reading errors other than "line too long" cannot happen on an in-memory reader.
- The reader's buffer size is a parameter of at least 16 bytes, 4096 by default.
- Suite text is a sequence of characters, one per byte, with no encoding; flag strings are sequences of Unicode code points, as `strings.Fields` decodes UTF-8 and splits at Unicode white space. Invalid UTF-8 in a flag is not modelled.
- Test bodies are modelled only through their `Assert` calls and throws (`TestFailed`, a `std::exception`, anything else); control flow inside a body (loops, branches, its own `try`/`catch`, so a body that catches `TestFailed` itself) is not modelled. C++ `int` overflow of the check counter is not modelled.
- Orchestrator.Outcomes: states only that there is one outcome per suite; what each outcome is comes from `RunSuite`.
- Orchestrator.Drive: returns the corrected status of `IntendedStatus` next to the code passed to `os.Exit`, not the wrapped status alone; the wrapped status is `ExitStatus(code)` and the finding below shows where the two differ.
- Runner.RunnerMain: its contract states only the range of the exit code; the full report is stated by `ExitZeroIffAllPass` and `ReportWithoutEscapes`.

## Findings

| source | as written | input that shows it | evidently intended | confidence | as-written member | corrected member |
|---|---|---|---|---|---|---|
| main.go:64 | `os.Exit(failures)` hands the raw failure count to the operating system, which keeps only its low 8 bits | 256 failing suites: the parent process sees exit status 0, the "all clean" status | a non-zero status whenever some suite failed (for instance the count, capped at 255) | not executed | Orchestrator.ExitStatus, OrchestratorFacts.ExitStatusWraps | Orchestrator.IntendedStatus, OrchestratorFacts.IntendedStatusReportsFailures |
