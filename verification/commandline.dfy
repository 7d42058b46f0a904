/** The compiler command line (main.go:20-49 and 91-97): the flag values,
    their split into fields, the object list, and the argument vector that
    every suite's compilation receives. */
module CommandLine {
  import opened Results

  /** `unicode.IsSpace`: the ASCII white space characters, NEL, NO-BREAK
      SPACE, and the other characters with the Unicode White_Space
      property. */
  predicate IsSpace(c: char) {
    c == '\t' || c == '\n' || c as int == 0x0B || c as int == 0x0C || c == '\r' || c == ' '
    || c as int == 0x85 || c as int == 0xA0 || c as int == 0x1680
    || (0x2000 <= c as int <= 0x200A)
    || c as int == 0x2028 || c as int == 0x2029 || c as int == 0x202F
    || c as int == 0x205F || c as int == 0x3000
  }

  /** What `strings.Fields` can return as one field. */
  predicate IsField(f: string) {
    |f| > 0 && forall k :: 0 <= k < |f| ==> !IsSpace(f[k])
  }

  /** End of the run of non-space characters that starts at `i`. */
  function FieldEnd(s: string, i: nat): (e: nat)
    requires i <= |s|
    ensures i <= e <= |s|
    ensures forall k :: i <= k < e ==> !IsSpace(s[k])
    ensures e < |s| ==> IsSpace(s[e])
    decreases |s| - i
  {
    if i == |s| || IsSpace(s[i]) then i else FieldEnd(s, i + 1)
  }

  /** `strings.Fields`: the maximal runs of non-space characters, in order. */
  function Fields(s: string): (fs: seq<string>)
    ensures forall k :: 0 <= k < |fs| ==> IsField(fs[k])
    decreases |s|
  {
    if |s| == 0 then []
    else if IsSpace(s[0]) then Fields(s[1..])
    else
      var e := FieldEnd(s, 0);
      [s[..e]] + Fields(s[e..])
  }

  /** Only white space. */
  predicate IsBlank(s: string) {
    forall k :: 0 <= k < |s| ==> IsSpace(s[k])
  }

  /** Pieces laid out between white-space gaps:
      `gaps[0] + fs[0] + gaps[1] + ... + fs[n - 1] + gaps[n]`. */
  function Spaced(gaps: seq<string>, fs: seq<string>): string
    requires |gaps| == |fs| + 1
    decreases |fs|
  {
    if |fs| == 0 then gaps[0] else gaps[0] + fs[0] + Spaced(gaps[1..], fs[1..])
  }

  /** Gaps that can separate `n` fields: all white space, and non-empty
      between two fields; the outer two may be empty. */
  predicate Separates(gaps: seq<string>, n: nat) {
    && |gaps| == n + 1
    && (forall k :: 0 <= k < |gaps| ==> IsBlank(gaps[k]))
    && (forall k :: 0 < k < n ==> |gaps[k]| > 0)
  }

  /** `strings.Join(fs, sep)`. */
  function Join(fs: seq<string>, sep: string): string {
    if |fs| == 0 then ""
    else if |fs| == 1 then fs[0]
    else fs[0] + sep + Join(fs[1..], sep)
  }

  /** All characters of the fields, in order. */
  function Concat(fs: seq<string>): string {
    if |fs| == 0 then "" else fs[0] + Concat(fs[1..])
  }

  /** The characters of `s` that are not white space, in order. */
  function NonSpace(s: string): string {
    if |s| == 0 then ""
    else if IsSpace(s[0]) then NonSpace(s[1..])
    else [s[0]] + NonSpace(s[1..])
  }

  /** The command-line flags and their defaults (main.go:20-25). */
  datatype Flags = Flags(
    cxx: string,
    cxxflags: string,
    ldflags: string,
    testdir: string,
    objdir: string,
    verbose: bool)

  const DefaultFlags: Flags := Flags("clang++", "", "", "test", "build", false)

  /** The split-up command line shared by all suites (main.go:27-32). */
  datatype CmdLine = CmdLine(
    cxx: string,
    cxxflags: seq<string>,
    ldflags: seq<string>,
    objects: seq<string>)

  /** Why a glob fails: only a malformed pattern makes `filepath.Glob`
      return an error. */
  datatype GlobError = BadPattern

  /** Assembling the command line (main.go:41-49): both flag strings split
      into fields, then the positional arguments followed by the objects
      the glob found; a failed glob adds nothing. */
  function MakeCmdLine(flags: Flags, positional: seq<string>, found: Result<seq<string>, GlobError>): (c: CmdLine)
    ensures c.cxx == flags.cxx
    ensures c.cxxflags == Fields(flags.cxxflags) && c.ldflags == Fields(flags.ldflags)
    ensures forall k :: 0 <= k < |c.cxxflags| ==> IsField(c.cxxflags[k])
    ensures forall k :: 0 <= k < |c.ldflags| ==> IsField(c.ldflags[k])
    ensures |positional| <= |c.objects| && c.objects[..|positional|] == positional
    ensures found.Ok? ==> c.objects[|positional|..] == found.value
    ensures found.Err? ==> c.objects == positional
  {
    var objects := if found.Ok? then positional + found.value else positional;
    CmdLine(flags.cxx, Fields(flags.cxxflags), Fields(flags.ldflags), objects)
  }

  /** The name of the compiled runner. */
  const RunnerBinary: string := "test_runner"

  /** The generated runner source for a suite (main.go:76). */
  function RunnerSource(suite: string): (out: string)
    ensures |out| == |suite| + 11
    ensures out[..|suite|] == suite
    ensures out[|suite|..] == "_runner.cpp"
  {
    suite + "_runner.cpp"
  }

  /** The compiler arguments for one suite (main.go:91-97): compile flags,
      `-o test_runner`, the runner source, every object one by one, then the
      link flags. */
  method CompileArgs(c: CmdLine, testout: string) returns (args: seq<string>)
    ensures args == c.cxxflags + ["-o", RunnerBinary, testout] + c.objects + c.ldflags
  {
    args := [];
    args := args + c.cxxflags;
    args := args + ["-o", RunnerBinary, testout];
    var i := 0;
    while i < |c.objects|
      invariant 0 <= i <= |c.objects|
      invariant args == c.cxxflags + ["-o", RunnerBinary, testout] + c.objects[..i]
    {
      args := args + [c.objects[i]];
      i := i + 1;
    }
    assert c.objects[..i] == c.objects;
    args := args + c.ldflags;
  }

  /** The argument vector as a value, for reasoning about several suites. */
  function ArgVector(c: CmdLine, testout: string): seq<string> {
    c.cxxflags + ["-o", RunnerBinary, testout] + c.objects + c.ldflags
  }

  /** Reading the pieces back out of an argument vector, given how many
      compile and link flags it holds. */
  function SplitArgs(args: seq<string>, ncxx: nat, nld: nat): (r: Option<(CmdLine, string)>)
    ensures r.Some? ==> |args| == ncxx + 3 + |r.value.0.objects| + nld
    ensures r.Some? ==> |r.value.0.cxxflags| == ncxx && |r.value.0.ldflags| == nld
  {
    if ncxx + 3 + nld <= |args| && args[ncxx] == "-o" && args[ncxx + 1] == RunnerBinary then
      var objects := args[ncxx + 3..|args| - nld];
      Some((CmdLine("", args[..ncxx], args[|args| - nld..], objects), args[ncxx + 2]))
    else None
  }
}

/** Properties of the command line. */
module CommandLineFacts {
  import opened Results
  import opened CommandLine

  /** A field ends at the first white space after it. */
  lemma FieldEndOfField(f: string, rest: string)
    requires IsField(f)
    requires |rest| > 0 ==> IsSpace(rest[0])
    ensures FieldEnd(f + rest, 0) == |f|
  {
    var s := f + rest;
    assert forall k :: 0 <= k < |f| ==> s[k] == f[k];
    if |rest| > 0 {
      assert s[|f|] == rest[0];
    }
  }

  /** Splitting undoes joining with one space, as long as every piece is a
      field: `strings.Fields(strings.Join(fs, " ")) == fs`. */
  lemma {:induction false} FieldsOfJoin(fs: seq<string>)
    requires forall k :: 0 <= k < |fs| ==> IsField(fs[k])
    ensures Fields(Join(fs, " ")) == fs
    decreases |fs|
  {
    if |fs| == 0 {
    } else if |fs| == 1 {
      var f := fs[0];
      FieldEndOfField(f, []);
      assert f + [] == f;
      assert f[..|f|] == f && f[|f|..] == [];
      assert Fields(f) == [f] + Fields([]);
    } else {
      var f := fs[0];
      var tail := " " + Join(fs[1..], " ");
      assert Join(fs, " ") == f + tail;
      FieldEndOfField(f, tail);
      var s := f + tail;
      assert s[..|f|] == f;
      assert s[|f|..] == tail;
      assert Fields(s) == [f] + Fields(tail);
      assert tail[1..] == Join(fs[1..], " ");
      FieldsOfJoin(fs[1..]);
      assert [f] + fs[1..] == fs;
    }
  }

  /** Leading white space is skipped. */
  lemma {:induction false} FieldsAfterBlank(b: string, s: string)
    requires IsBlank(b)
    ensures Fields(b + s) == Fields(s)
    decreases |b|
  {
    if |b| > 0 {
      var t := b + s;
      assert t[0] == b[0] && IsSpace(t[0]);
      assert t[1..] == b[1..] + s;
      assert Fields(t) == Fields(t[1..]);
      FieldsAfterBlank(b[1..], s);
    } else {
      assert b + s == s;
    }
  }

  /** A field followed by white space (or nothing) is split off whole. */
  lemma FieldThen(f: string, rest: string)
    requires IsField(f)
    requires |rest| > 0 ==> IsSpace(rest[0])
    ensures Fields(f + rest) == [f] + Fields(rest)
  {
    var s := f + rest;
    FieldEndOfField(f, rest);
    assert s[0] == f[0];
    assert s[..|f|] == f;
    assert s[|f|..] == rest;
  }

  /** A gapped layout starts with its first gap. */
  lemma SpacedStart(gaps: seq<string>, fs: seq<string>)
    requires |gaps| == |fs| + 1
    ensures |gaps[0]| <= |Spaced(gaps, fs)|
    ensures Spaced(gaps, fs)[..|gaps[0]|] == gaps[0]
  {
  }

  /** Whatever white space separates the fields, and whatever surrounds
      them, `strings.Fields` returns exactly the fields: there is only one
      way to read a text as fields between white space. */
  lemma {:induction false} FieldsOfSpaced(gaps: seq<string>, fs: seq<string>)
    requires forall k :: 0 <= k < |fs| ==> IsField(fs[k])
    requires Separates(gaps, |fs|)
    ensures Fields(Spaced(gaps, fs)) == fs
    decreases |fs|
  {
    if |fs| == 0 {
      FieldsOfBlank(gaps[0]);
    } else {
      var tail := Spaced(gaps[1..], fs[1..]);
      assert Spaced(gaps, fs) == gaps[0] + (fs[0] + tail);
      FieldsAfterBlank(gaps[0], fs[0] + tail);
      SpacedStart(gaps[1..], fs[1..]);
      if |tail| > 0 {
        if |fs| == 1 {
          assert tail == gaps[1];
        } else {
          assert |gaps[1]| > 0;
          assert tail[0] == gaps[1][0];
        }
      }
      FieldThen(fs[0], tail);
      assert Separates(gaps[1..], |fs[1..]|) by {
        forall k | 0 < k < |fs| - 1
          ensures |gaps[1..][k]| > 0
        {
          assert gaps[1..][k] == gaps[k + 1];
        }
      }
      FieldsOfSpaced(gaps[1..], fs[1..]);
      assert [fs[0]] + fs[1..] == fs;
    }
  }

  /** Every text is its fields laid out between white-space gaps. */
  lemma {:induction false} SpacedFields(s: string) returns (gaps: seq<string>)
    ensures Separates(gaps, |Fields(s)|)
    ensures Spaced(gaps, Fields(s)) == s
    decreases |s|
  {
    if |s| == 0 {
      gaps := [""];
    } else if IsSpace(s[0]) {
      var rest := SpacedFields(s[1..]);
      gaps := [[s[0]] + rest[0]] + rest[1..];
      SpacedGrow(s[0], rest, Fields(s[1..]));
      assert [s[0]] + s[1..] == s;
    } else {
      var e := FieldEnd(s, 0);
      var fs := Fields(s[e..]);
      var rest := SpacedFields(s[e..]);
      gaps := [""] + rest;
      assert Fields(s) == [s[..e]] + fs;
      assert Spaced(gaps, Fields(s)) == "" + s[..e] + Spaced(rest, fs) by {
        assert gaps[1..] == rest;
        assert Fields(s)[1..] == fs;
      }
      assert s[..e] + s[e..] == s;
      if |fs| > 0 {
        FirstGapOfSpace(rest, fs, s[e..]);
      }
      assert Separates(gaps, |Fields(s)|) by {
        forall k | 0 <= k < |gaps|
          ensures IsBlank(gaps[k])
        {
          if k > 0 { assert gaps[k] == rest[k - 1]; }
        }
        forall k | 0 < k < |Fields(s)|
          ensures |gaps[k]| > 0
        {
          assert gaps[k] == rest[k - 1];
        }
      }
    }
  }

  /** Putting one more white-space character in front of the first gap. */
  lemma SpacedGrow(c: char, gaps: seq<string>, fs: seq<string>)
    requires |gaps| == |fs| + 1
    ensures Spaced([[c] + gaps[0]] + gaps[1..], fs) == [c] + Spaced(gaps, fs)
  {
    var g := [[c] + gaps[0]] + gaps[1..];
    assert g[1..] == gaps[1..];
  }

  /** A text that starts with white space has a non-empty first gap before
      its first field. */
  lemma FirstGapOfSpace(gaps: seq<string>, fs: seq<string>, s: string)
    requires |gaps| == |fs| + 1 && |fs| > 0 && IsField(fs[0])
    requires Spaced(gaps, fs) == s && |s| > 0 && IsSpace(s[0])
    ensures |gaps[0]| > 0
  {
    var f := fs[0];
    assert s == gaps[0] + (f + Spaced(gaps[1..], fs[1..]));
  }

  lemma ConcatAppend(a: seq<string>, b: seq<string>)
    ensures Concat(a + b) == Concat(a) + Concat(b)
  {
    if |a| == 0 {
      assert a + b == b;
    } else {
      assert (a + b)[1..] == a[1..] + b;
      ConcatAppend(a[1..], b);
    }
  }

  /** Dropping white space from a text that starts with a field keeps the
      field and continues after it. */
  lemma {:induction false} NonSpaceOfField(s: string, e: nat)
    requires e <= |s|
    requires forall k :: 0 <= k < e ==> !IsSpace(s[k])
    ensures NonSpace(s) == s[..e] + NonSpace(s[e..])
    decreases e
  {
    if e > 0 {
      NonSpaceOfField(s[1..], e - 1);
      assert s[1..][..e - 1] == s[1..e];
      assert s[1..][e - 1..] == s[e..];
      assert [s[0]] + s[1..e] == s[..e];
    }
  }

  /** No character other than white space is lost or added: the fields
      hold exactly the text's non-space characters, in order. */
  lemma {:induction false} FieldsKeepNonSpace(s: string)
    ensures Concat(Fields(s)) == NonSpace(s)
    decreases |s|
  {
    if |s| == 0 {
    } else if IsSpace(s[0]) {
      FieldsKeepNonSpace(s[1..]);
    } else {
      var e := FieldEnd(s, 0);
      FieldsKeepNonSpace(s[e..]);
      ConcatAppend([s[..e]], Fields(s[e..]));
      assert Concat([s[..e]]) == s[..e] + Concat([]);
      assert s[..e] + "" == s[..e];
      NonSpaceOfField(s, e);
    }
  }

  /** A text of only white space has no fields. */
  lemma {:induction false} FieldsOfBlank(s: string)
    requires forall k :: 0 <= k < |s| ==> IsSpace(s[k])
    ensures Fields(s) == []
    decreases |s|
  {
    if |s| > 0 {
      FieldsOfBlank(s[1..]);
    }
  }

  /** The default flags contribute no compile or link flags. */
  lemma DefaultFlagsAreEmpty(positional: seq<string>, found: Result<seq<string>, GlobError>)
    ensures MakeCmdLine(DefaultFlags, positional, found).cxxflags == []
    ensures MakeCmdLine(DefaultFlags, positional, found).ldflags == []
    ensures MakeCmdLine(DefaultFlags, positional, found).cxx == "clang++"
  {
  }

  /** Where everything sits in the argument vector: the compile flags
      first, then `-o test_runner <source>`, the objects, and the link
      flags last. */
  lemma ArgPositions(c: CmdLine, testout: string)
    ensures var args := ArgVector(c, testout);
      var n := |c.cxxflags|;
      && |args| == n + 3 + |c.objects| + |c.ldflags|
      && args[..n] == c.cxxflags
      && args[n] == "-o" && args[n + 1] == RunnerBinary && args[n + 2] == testout
      && args[n + 3..n + 3 + |c.objects|] == c.objects
      && args[n + 3 + |c.objects|..] == c.ldflags
  {
    var args := ArgVector(c, testout);
    var n := |c.cxxflags|;
    assert args == c.cxxflags + (["-o", RunnerBinary, testout] + (c.objects + c.ldflags));
  }

  /** The argument vector can be split back into what built it. */
  lemma SplitArgVector(c: CmdLine, testout: string)
    ensures SplitArgs(ArgVector(c, testout), |c.cxxflags|, |c.ldflags|)
      == Some((CmdLine("", c.cxxflags, c.ldflags, c.objects), testout))
  {
    ArgPositions(c, testout);
  }

  /** Compile flags written as space-separated fields reach the compiler
      one argument each, ahead of every other argument. */
  lemma FlagsReachCompiler(flags: Flags, fs: seq<string>, positional: seq<string>,
                           found: Result<seq<string>, GlobError>, testout: string)
    requires forall k :: 0 <= k < |fs| ==> IsField(fs[k])
    requires flags.cxxflags == Join(fs, " ")
    ensures var args := ArgVector(MakeCmdLine(flags, positional, found), testout);
      |fs| <= |args| && args[..|fs|] == fs
  {
    FieldsOfJoin(fs);
    ArgPositions(MakeCmdLine(flags, positional, found), testout);
  }
}
