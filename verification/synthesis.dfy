/** Runner synthesis (main.go:170-238): the suite's text and the names
    found in it are poured into a fixed C++ template, giving the source of
    a program that calls every test through a table and reports failures. */
module Synthesis {
  import opened Results
  import Decimal

  /** The data the template is executed with: the suite's whole text and
      the test names found in it. */
  datatype Test = Test(text: string, tests: seq<string>)

  /** Everything before the suite's text: the includes, the failure marker
      type, the `Testo` recorder with its `Assert`, and the test signature. */
  const Preamble: string :=
    "\n"
    + "#include <array>\n"
    + "#include <iostream>\n"
    + "#include <string>\n"
    + "#include <tuple>\n"
    + "#include <utility>\n"
    + "#include <vector>\n"
    + "\n"
    + "struct TestFailed{};\n"
    + "\n"
    + "class Testo{\n"
    + "\tfriend int main(int, char*[]);\n"
    + "\tstd::vector<std::tuple<std::string,int,std::string>> msgs;\n"
    + "\tint ntests;\n"
    + "\tstd::string current;\n"
    + "\tTesto() : ntests(0){}\n"
    + "public:\n"
    + "\tvoid Assert(bool b, std::string &&msg){\n"
    + "\t\tntests++;\n"
    + "\t\tif(b) return;\n"
    + "\t\tmsgs.push_back(make_tuple(current, ntests, move(msg)));\n"
    + "\t\tthrow TestFailed{};\n"
    + "\t}\n"
    + "};\n"
    + "\n"
    + "typedef void (test)(Testo &);\n"
    + "\n"

  /** The table declaration up to its size. */
  const TableOpen: string := "\n\nstd::array<std::tuple<std::string, test*>, "

  /** After the size, the opening of the initialiser. */
  const TableAfterCount: string := "> tests = { {\n"

  /** One table entry is `EntryOpen name EntryMid name EntryClose`: the
      name as a string and the function of that name. */
  const EntryOpen: string := "\n\tmake_tuple(std::string(\""
  const EntryMid: string := "\"), "
  const EntryClose: string := "),\n"

  /** The end of the initialiser. */
  const TableClose: string := "\n} };\n\n"

  /** The runner's `main`: run every test, then report. */
  const EntryPoint: string :=
    "int main(int argc, char *argv[]){\n"
    + "\tTesto testo;\n"
    + "\tfor(auto t : tests){\n"
    + "\t\ttry{\n"
    + "\t\t\ttesto.current = std::get<0>(t);\n"
    + "\t\t\tstd::get<1>(t)(testo);\n"
    + "\t\t}catch(TestFailed tf){\n"
    + "\t\t\t// OK\n"
    + "\t\t}catch(const std::exception &e){\n"
    + "\t\t\tstd::cout << \"Unexpected exception: \" << e.what() << '\\n';\n"
    + "\t\t\treturn 1;\n"
    + "\t\t}catch(...){\n"
    + "\t\t\tstd::cout << \"Unexpected, unknown exception\\n\";\n"
    + "\t\t\treturn 1;\n"
    + "\t\t}\n"
    + "\t}\n"
    + "\n"
    + "\tif(testo.msgs.empty()){\n"
    + "\t\tstd::cout << argv[0] << \": All tests pass.\\n\";\n"
    + "\t\treturn 0;\n"
    + "\t}\n"
    + "\n"
    + "\tstd::cout << argv[0] << \": \" << testo.msgs.size() << '/' << testo.ntests << \" tests failed:\\n\";\n"
    + "\tfor(auto msg : testo.msgs)\n"
    + "\t\tstd::cout << std::get<0>(msg) << \" #\"\n"
    + "\t\t\t<< std::get<1>(msg) << \": \\\"\" << std::get<2>(msg) << \"\\\"\\n\";\n"
    + "\treturn 1;\n"
    + "}\n"

  /** The template cut at its actions: `{{.Text}}`, `{{len .Tests}}`, the
      `{{range .Tests}}` body with its two `{{.}}`, and `{{end}}`. */
  datatype Template = Template(
    preamble: string,
    tableOpen: string,
    tableAfterCount: string,
    entryOpen: string,
    entryMid: string,
    entryClose: string,
    tableClose: string,
    entryPoint: string)

  /** The runner template (main.go:175-238). */
  const Runner: Template :=
    Template(Preamble, TableOpen, TableAfterCount, EntryOpen, EntryMid, EntryClose, TableClose, EntryPoint)

  /** What reading a table back relies on: a row opens with something,
      the quoted name is followed by the closing quote, and the size is
      followed by a non-digit. */
  predicate Readable(tmpl: Template) {
    && |tmpl.entryOpen| > 0
    && |tmpl.entryMid| > 0 && tmpl.entryMid[0] == '"'
    && |tmpl.tableAfterCount| > 0 && !Decimal.IsDigit(tmpl.tableAfterCount[0])
  }

  /** One row of the test table: the name as a string, paired with the
      function of that name. */
  function Entry(tmpl: Template, name: string): (e: string)
    ensures |e| == RowFrame(tmpl) + 2 * |name|
    ensures e[|tmpl.entryOpen|..|tmpl.entryOpen| + |name|] == name
    ensures e[|e| - |tmpl.entryClose| - |name|..|e| - |tmpl.entryClose|] == name
  {
    var e := tmpl.entryOpen + name + tmpl.entryMid + name + tmpl.entryClose;
    assert e == tmpl.entryOpen + (name + (tmpl.entryMid + (name + tmpl.entryClose)));
    assert e[|tmpl.entryOpen|..] == name + (tmpl.entryMid + (name + tmpl.entryClose));
    assert e[..|e| - |tmpl.entryClose|] == tmpl.entryOpen + name + tmpl.entryMid + name;
    e
  }

  /** The characters a row adds around its two copies of the name. */
  function RowFrame(tmpl: Template): nat {
    |tmpl.entryOpen| + |tmpl.entryMid| + |tmpl.entryClose|
  }

  /** The characters of all names together. */
  function NameChars(ns: seq<string>): nat {
    if |ns| == 0 then 0 else |ns[0]| + NameChars(ns[1..])
  }

  /** The `range` over the names: one row per name, in order. */
  function Entries(tmpl: Template, ns: seq<string>): string
  {
    if |ns| == 0 then "" else Entry(tmpl, ns[0]) + Entries(tmpl, ns[1..])
  }

  /** The table: its size is the number of names, then the rows. */
  function Table(tmpl: Template, ns: seq<string>): (t: string)
    ensures var open := tmpl.tableOpen + Decimal.NatToString(|ns|);
      && |open| + |tmpl.tableClose| <= |t|
      && t[..|open|] == open
      && t[|t| - |tmpl.tableClose|..] == tmpl.tableClose
  {
    var open := tmpl.tableOpen + Decimal.NatToString(|ns|);
    var t := open + tmpl.tableAfterCount + Entries(tmpl, ns) + tmpl.tableClose;
    assert t == open + (tmpl.tableAfterCount + Entries(tmpl, ns) + tmpl.tableClose);
    t
  }

  /** Executing the template (main.go:84): the text verbatim, once, between
      the preamble and the table. `text/template` escapes nothing, so
      whatever the text holds reaches the C++ source unchanged. */
  function Execute(tmpl: Template, t: Test): (src: string)
    ensures |src| == |tmpl.preamble| + |t.text| + |Table(tmpl, t.tests)| + |tmpl.entryPoint|
    ensures src[..|tmpl.preamble|] == tmpl.preamble
    ensures src[|tmpl.preamble|..|tmpl.preamble| + |t.text|] == t.text
    ensures src[|tmpl.preamble| + |t.text|..|src| - |tmpl.entryPoint|] == Table(tmpl, t.tests)
    ensures src[|src| - |tmpl.entryPoint|..] == tmpl.entryPoint
  {
    var table := Table(tmpl, t.tests);
    var src := tmpl.preamble + t.text + table + tmpl.entryPoint;
    assert src == tmpl.preamble + (t.text + (table + tmpl.entryPoint));
    assert src[|tmpl.preamble|..] == t.text + (table + tmpl.entryPoint);
    assert src[|tmpl.preamble| + |t.text|..] == table + tmpl.entryPoint;
    src
  }

  /** A name that can sit between the quotes of a C++ string literal
      without ending it early. */
  predicate Quotable(name: string) {
    |name| > 0 && '"' !in name
  }

  /** The first '"' at or after `i`, or the end. */
  function QuoteFrom(s: string, i: nat): (q: nat)
    requires i <= |s|
    ensures i <= q <= |s|
    ensures forall k :: i <= k < q ==> s[k] != '"'
    ensures q < |s| ==> s[q] == '"'
    decreases |s| - i
  {
    if i == |s| || s[i] == '"' then i else QuoteFrom(s, i + 1)
  }

  /** The first non-digit at or after `i`, or the end. */
  function DigitsFrom(s: string, i: nat): (d: nat)
    requires i <= |s|
    ensures i <= d <= |s|
    ensures forall k :: i <= k < d ==> Decimal.IsDigit(s[k])
    ensures d < |s| ==> !Decimal.IsDigit(s[d])
    decreases |s| - i
  {
    if i == |s| || !Decimal.IsDigit(s[i]) then i else DigitsFrom(s, i + 1)
  }

  /** Reading the rows back: each must name the same function it quotes. */
  function ParseEntries(tmpl: Template, s: string): (r: Option<seq<string>>)
    ensures r.Some? ==> forall k :: 0 <= k < |r.value| ==> Quotable(r.value[k])
    decreases |s|
  {
    var open := tmpl.entryOpen;
    if |s| == 0 then Some([])
    else if 0 < |open| <= |s| && s[..|open|] == open then
      var name := s[|open|..QuoteFrom(s, |open|)];
      var e := Entry(tmpl, name);
      if |name| > 0 && |e| <= |s| && s[..|e|] == e then
        match ParseEntries(tmpl, s[|e|..])
        case None => None
        case Some(rest) => Some([name] + rest)
      else None
    else None
  }

  /** Reading what follows the declared size: the opening, the rows and the
      closing, with as many rows as declared. */
  function ParseRows(tmpl: Template, count: nat, rest: string): (r: Option<seq<string>>)
    ensures r.Some? ==> |r.value| == count
  {
    var after := tmpl.tableAfterCount;
    var close := tmpl.tableClose;
    if |after| + |close| <= |rest| && rest[..|after|] == after && rest[|rest| - |close|..] == close then
      var rows := ParseEntries(tmpl, rest[|after|..|rest| - |close|]);
      if rows.Some? && |rows.value| == count then rows else None
    else None
  }

  /** Reading a table back: the declared size must be the number of rows. */
  function ParseTable(tmpl: Template, s: string): (r: Option<seq<string>>)
  {
    var open := tmpl.tableOpen;
    if |open| <= |s| && s[..|open|] == open then
      var d := DigitsFrom(s, |open|);
      match Decimal.ParseNat(s[|open|..d])
      case None => None
      case Some(count) => ParseRows(tmpl, count, s[d..])
    else None
  }

  /** The source starts with the preamble and ends with the entry point,
      with room for a text of `textLength` characters between them. */
  predicate Framed(tmpl: Template, src: string, textLength: nat) {
    && |tmpl.preamble| + textLength + |tmpl.entryPoint| <= |src|
    && src[..|tmpl.preamble|] == tmpl.preamble
    && src[|src| - |tmpl.entryPoint|..] == tmpl.entryPoint
  }

  /** What lies between the text and the entry point: the table. */
  function Middle(tmpl: Template, src: string, textLength: nat): string
    requires Framed(tmpl, src, textLength)
  {
    src[|tmpl.preamble| + textLength..|src| - |tmpl.entryPoint|]
  }

  /** Reading a runner source back, given the length of the suite's text. */
  function ParseRunner(tmpl: Template, src: string, textLength: nat): (r: Option<Test>)
    ensures r.Some? ==> |r.value.text| == textLength
  {
    if Framed(tmpl, src, textLength) then
      match ParseTable(tmpl, Middle(tmpl, src, textLength))
      case None => None
      case Some(ns) => Some(Test(src[|tmpl.preamble|..|tmpl.preamble| + textLength], ns))
    else None
  }
}

/** Properties of runner synthesis: the generated source can be read back
    into the test it was made from, so no name is lost, reordered or
    mismatched with its function. */
module SynthesisFacts {
  import opened Results
  import Decimal
  import Discovery
  import LineReader
  import DiscoveryFacts
  import opened Synthesis

  /** The runner template meets what reading it back needs. */
  lemma RunnerIsReadable()
    ensures Readable(Runner)
  {
    assert Runner.entryMid[0] == '"';
    assert Runner.tableAfterCount[0] == '>';
  }

  /** `QuoteFrom` stops at the quote that follows a quote-free stretch. */
  lemma QuoteFromIs(s: string, i: nat, q: nat)
    requires i <= q < |s|
    requires forall k :: i <= k < q ==> s[k] != '"'
    requires s[q] == '"'
    ensures QuoteFrom(s, i) == q
  {
  }

  /** `DigitsFrom` stops at the non-digit that follows a run of digits. */
  lemma DigitsFromIs(s: string, i: nat, d: nat)
    requires i <= d < |s|
    requires forall k :: i <= k < d ==> Decimal.IsDigit(s[k])
    requires !Decimal.IsDigit(s[d])
    ensures DigitsFrom(s, i) == d
  {
  }

  /** The first row of a table body is read back as its name, and reading
      continues right after it. */
  lemma EntryReadBack(tmpl: Template, name: string, rest: string)
    requires Readable(tmpl)
    requires Quotable(name)
    ensures var s := Entry(tmpl, name) + rest;
      && |tmpl.entryOpen| <= |s| && s[..|tmpl.entryOpen|] == tmpl.entryOpen
      && s[|tmpl.entryOpen|..QuoteFrom(s, |tmpl.entryOpen|)] == name
      && s[..|Entry(tmpl, name)|] == Entry(tmpl, name)
      && s[|Entry(tmpl, name)|..] == rest
  {
    var open := tmpl.entryOpen;
    var e := Entry(tmpl, name);
    var s := e + rest;
    var tail := tmpl.entryMid + name + tmpl.entryClose + rest;
    assert s == open + (name + tail);
    assert s[|open|..] == name + tail;
    forall k | |open| <= k < |open| + |name|
      ensures s[k] != '"'
    {
      assert s[k] == name[k - |open|];
    }
    assert s[|open| + |name|] == tmpl.entryMid[0];
    QuoteFromIs(s, |open|, |open| + |name|);
    assert s[|open|..|open| + |name|] == name;
  }

  /** Reading the rows back gives the names they were written from. */
  lemma {:induction false} EntriesRoundTrip(tmpl: Template, ns: seq<string>)
    requires Readable(tmpl)
    requires forall k :: 0 <= k < |ns| ==> Quotable(ns[k])
    ensures ParseEntries(tmpl, Entries(tmpl, ns)) == Some(ns)
    decreases |ns|
  {
    if |ns| > 0 {
      var rest := Entries(tmpl, ns[1..]);
      EntryReadBack(tmpl, ns[0], rest);
      EntriesRoundTrip(tmpl, ns[1..]);
      assert [ns[0]] + ns[1..] == ns;
    }
  }

  /** Rows of two lists of names are the rows of their concatenation. */
  lemma {:induction false} EntriesAppend(tmpl: Template, a: seq<string>, b: seq<string>)
    ensures Entries(tmpl, a + b) == Entries(tmpl, a) + Entries(tmpl, b)
    decreases |a|
  {
    if |a| == 0 {
      assert a + b == b;
    } else {
      assert (a + b)[1..] == a[1..] + b;
      EntriesAppend(tmpl, a[1..], b);
    }
  }

  /** The rows take one frame per name and every name twice. */
  lemma {:induction false} EntriesLength(tmpl: Template, ns: seq<string>)
    ensures |Entries(tmpl, ns)| == |ns| * RowFrame(tmpl) + 2 * NameChars(ns)
    decreases |ns|
  {
    if |ns| > 0 {
      EntriesLength(tmpl, ns[1..]);
    }
  }

  /** The declared size is read back as written and is followed by the
      rest of the table. */
  lemma CountReadBack(tmpl: Template, ns: seq<string>)
    requires Readable(tmpl)
    ensures var s := Table(tmpl, ns);
      var open := tmpl.tableOpen;
      var d := |open| + |Decimal.NatToString(|ns|)|;
      && |open| <= |s| && s[..|open|] == open
      && DigitsFrom(s, |open|) == d
      && s[|open|..d] == Decimal.NatToString(|ns|)
      && s[d..] == tmpl.tableAfterCount + Entries(tmpl, ns) + tmpl.tableClose
  {
    var open := tmpl.tableOpen;
    var digits := Decimal.NatToString(|ns|);
    var after := tmpl.tableAfterCount + Entries(tmpl, ns) + tmpl.tableClose;
    assert Table(tmpl, ns) == open + digits + after;
    assert after[0] == tmpl.tableAfterCount[0];
    DigitsBetween(open, digits, after);
  }

  /** A run of digits between a prefix and a text that starts with a
      non-digit is read as exactly that run. */
  lemma DigitsBetween(open: string, digits: string, after: string)
    requires forall k :: 0 <= k < |digits| ==> Decimal.IsDigit(digits[k])
    requires |after| > 0 && !Decimal.IsDigit(after[0])
    ensures var s := open + digits + after;
      var d := |open| + |digits|;
      && s[..|open|] == open
      && DigitsFrom(s, |open|) == d
      && s[|open|..d] == digits
      && s[d..] == after
  {
    var s := open + digits + after;
    var d := |open| + |digits|;
    forall k | |open| <= k < d
      ensures Decimal.IsDigit(s[k])
    {
      assert s[k] == digits[k - |open|];
    }
    assert s[d] == after[0];
    DigitsFromIs(s, |open|, d);
  }

  /** What follows the declared size is read back as the rows. */
  lemma RowsRoundTrip(tmpl: Template, ns: seq<string>, rest: string)
    requires Readable(tmpl)
    requires forall k :: 0 <= k < |ns| ==> Quotable(ns[k])
    requires rest == tmpl.tableAfterCount + Entries(tmpl, ns) + tmpl.tableClose
    ensures ParseRows(tmpl, |ns|, rest) == Some(ns)
  {
    var after := tmpl.tableAfterCount;
    var close := tmpl.tableClose;
    var rows := Entries(tmpl, ns);
    assert rest[..|after|] == after;
    assert rest[|rest| - |close|..] == close;
    assert rest[|after|..|rest| - |close|] == rows;
    EntriesRoundTrip(tmpl, ns);
  }

  /** One step of reading a table: past the opening and the size. */
  lemma ParseTableAt(tmpl: Template, s: string, d: nat, count: nat)
    requires |tmpl.tableOpen| <= d <= |s| && s[..|tmpl.tableOpen|] == tmpl.tableOpen
    requires DigitsFrom(s, |tmpl.tableOpen|) == d
    requires Decimal.ParseNat(s[|tmpl.tableOpen|..d]) == Some(count)
    ensures ParseTable(tmpl, s) == ParseRows(tmpl, count, s[d..])
  {
  }

  /** One step of reading a runner: the text at its place, then the table. */
  lemma ParseRunnerAt(tmpl: Template, src: string, text: string, ns: seq<string>)
    requires Framed(tmpl, src, |text|)
    requires src[|tmpl.preamble|..|tmpl.preamble| + |text|] == text
    requires ParseTable(tmpl, Middle(tmpl, src, |text|)) == Some(ns)
    ensures ParseRunner(tmpl, src, |text|) == Some(Test(text, ns))
  {
  }

  /** Reading a table back gives its names, and the declared size agrees
      with the number of rows. */
  lemma TableRoundTrip(tmpl: Template, ns: seq<string>)
    requires Readable(tmpl)
    requires forall k :: 0 <= k < |ns| ==> Quotable(ns[k])
    ensures ParseTable(tmpl, Table(tmpl, ns)) == Some(ns)
  {
    var s := Table(tmpl, ns);
    var digits := Decimal.NatToString(|ns|);
    var d := |tmpl.tableOpen| + |digits|;
    CountReadBack(tmpl, ns);
    Decimal.ParseNatToString(|ns|);
    ParseTableAt(tmpl, s, d, |ns|);
    RowsRoundTrip(tmpl, ns, s[d..]);
  }

  /** Reading the generated runner back gives the suite's text and its
      names: the text sits in it verbatim, and every name heads one row. */
  lemma ExecuteRoundTrip(tmpl: Template, t: Test)
    requires Readable(tmpl)
    requires forall k :: 0 <= k < |t.tests| ==> Quotable(t.tests[k])
    ensures ParseRunner(tmpl, Execute(tmpl, t), |t.text|) == Some(t)
  {
    TableRoundTrip(tmpl, t.tests);
    ParseExecuted(tmpl, t);
  }

  /** The generated source reads back as its test whenever its table
      does. */
  lemma ParseExecuted(tmpl: Template, t: Test)
    requires ParseTable(tmpl, Table(tmpl, t.tests)) == Some(t.tests)
    ensures ParseRunner(tmpl, Execute(tmpl, t), |t.text|) == Some(t)
  {
    ExecuteFramed(tmpl, t);
    ParseRunnerAt(tmpl, Execute(tmpl, t), t.text, t.tests);
  }

  /** The generated source is framed by the template, holds the text, and
      has the table in the middle. */
  lemma ExecuteFramed(tmpl: Template, t: Test)
    ensures Framed(tmpl, Execute(tmpl, t), |t.text|)
    ensures Execute(tmpl, t)[|tmpl.preamble|..|tmpl.preamble| + |t.text|] == t.text
    ensures Middle(tmpl, Execute(tmpl, t), |t.text|) == Table(tmpl, t.tests)
  {
  }

  /** A discovered name never holds a quote. */
  lemma TestNameIsQuotable(n: string)
    requires Discovery.IsTestName(n)
    ensures Quotable(n)
  {
  }

  /** For every suite whose tests can be found, a runner generated from it
      by a readable template (as the runner template is) holds the suite's
      text and one row per discovered name, in order. */
  lemma SuiteRunnerRoundTrip(tmpl: Template, code: string, ns: seq<string>)
    requires Readable(tmpl)
    requires Discovery.FindTests(code) == Ok(ns)
    ensures ParseRunner(tmpl, Execute(tmpl, Test(code, ns)), |code|) == Some(Test(code, ns))
  {
    DiscoveryFacts.NamesAreTestNames(LineReader.Lines(code));
    forall k | 0 <= k < |ns|
      ensures Quotable(ns[k])
    {
      TestNameIsQuotable(ns[k]);
    }
    ExecuteRoundTrip(tmpl, Test(code, ns));
  }
}
