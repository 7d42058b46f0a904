/** The table-driven test of `findTests` (find_test.go:9-31) restated as
    lemmas about the model, and the slice comparison the test uses
    (find_test.go:33-43). */
module FindTestVectors {
  import opened Results
  import LineReader
  import opened Discovery
  import opened DiscoveryFacts

  /** `slicesEqual`: equal lengths and equal elements at every index. */
  method SlicesEqual(a: seq<string>, b: seq<string>) returns (equal: bool)
    ensures equal <==> |a| == |b| && forall i :: 0 <= i < |a| ==> a[i] == b[i]
    ensures equal <==> a == b
  {
    if |a| != |b| {
      return false;
    }
    var i := 0;
    while i < |a|
      invariant 0 <= i <= |a|
      invariant forall j :: 0 <= j < i ==> a[j] == b[j]
    {
      if a[i] != b[i] {
        return false;
      }
      i := i + 1;
    }
    return true;
  }

  /** A single line without '\n' is the only line of the text. */
  lemma OneLine(line: string)
    requires '\n' !in line && |line| > 0
    ensures LineReader.Lines(line) == [line]
  {
    LineReader.LinesOfUnterminated([], line);
    assert LineReader.JoinLines([]) + line == line;
  }

  /** A one-line text that is the marker, a word and a tail starting with
      a non-word character yields exactly "test_" and that word. */
  lemma OneTestLine(code: string, w: string, tail: string)
    requires code == Marker + w + tail
    requires |w| > 0 && IsWordRun(w)
    requires |tail| > 0 ==> !IsWordChar(tail[0])
    requires '\n' !in tail && |code| < LineReader.DefaultBufferSize
    ensures FindTests(code) == Ok(["test_" + w])
  {
    assert '\n' !in code by {
      forall k | 0 <= k < |code| ensures code[k] != '\n' {
        if k < |Marker| {
          assert code[k] == Marker[k];
        } else if k < |Marker| + |w| {
          assert code[k] == w[k - |Marker|];
        } else {
          assert code[k] == tail[k - |Marker| - |w|];
        }
      }
    }
    OneLine(code);
    MarkerAtStart(w, tail);
    NamesOfOneLine(code);
    assert LineReader.AllShorterThan([code], LineReader.DefaultBufferSize);
  }

  /** `"void test_frob"` yields `["test_frob"]`. */
  lemma FrobVector()
    ensures FindTests("void test_frob") == Ok(["test_frob"])
  {
    assert "test_" + "frob" == "test_frob";
    assert Marker + "frob" + "" == "void test_frob";
    OneTestLine("void test_frob", "frob", "");
  }

  /** `"void test_frob(xyz)"` yields `["test_frob"]`: the parameter list
      after the name is ignored. */
  lemma FrobParametersVector()
    ensures FindTests("void test_frob(xyz)") == Ok(["test_frob"])
  {
    assert "test_" + "frob" == "test_frob";
    assert Marker + "frob" + "(xyz)" == "void test_frob(xyz)";
    OneTestLine("void test_frob(xyz)", "frob", "(xyz)");
  }

  /** A line that is the marker and a word yields "test_" and the word. */
  lemma TestLine(line: string, w: string, name: string)
    requires line == Marker + w && name == "test_" + w
    requires |w| > 0 && IsWordRun(w)
    ensures FindSubmatch(line) == Some(name)
  {
    MarkerAtStart(w, []);
    assert Marker + w + [] == line;
  }

  /** Each test line of the multi-line vector is the marker and one of
      four words, and yields "test_" and that word. */
  lemma VectorTestLine(w: string)
    requires w == "cat" || w == "dog" || w == "hamster" || w == "gopher"
    ensures FindSubmatch(Marker + w) == Some("test_" + w)
  {
    TestLine(Marker + w, w, "test_" + w);
  }

  /** How the per-line results of the multi-line vector flatten: the lines
      without a match drop out and the others keep their order. */
  lemma MultiLineResults(rs: seq<Option<string>>, a: string, b: string, c: string, d: string)
    requires rs == [None, Some(a), Some(b), None, Some(c), None, Some(d)]
    ensures Present(rs) == [a, b, c, d]
  {
    assert Present(rs[6..]) == [d];
    assert Present(rs[4..]) == [c, d];
    assert Present(rs[2..]) == [b, c, d];
  }

  /** What the seven lines of the multi-line vector yield together. */
  lemma MultiLineMatches(lines: seq<string>)
    requires lines ==
      ["", "void test_cat", "void test_dog", "int test_robot", "void test_hamster", "1 + 2 = 3", "void test_gopher"]
    ensures Names(lines) == ["test_cat", "test_dog", "test_hamster", "test_gopher"]
  {
    var words := ["", "cat", "dog", "", "hamster", "", "gopher"];
    var rs := [None, Some("test_" + words[1]), Some("test_" + words[2]), None,
               Some("test_" + words[4]), None, Some("test_" + words[6])];
    forall k | 0 <= k < |lines|
      ensures FindSubmatch(lines[k]) == rs[k]
    {
      if k == 0 || k == 3 || k == 5 {
        NoMatchWithoutV(lines[k]);
      } else {
        assert lines[k] == Marker + words[k];
        VectorTestLine(words[k]);
      }
    }
    NamesFromResults(lines, rs);
    MultiLineResults(rs, "test_" + words[1], "test_" + words[2], "test_" + words[4], "test_" + words[6]);
    assert "test_" + words[1] == "test_cat" && "test_" + words[2] == "test_dog";
    assert "test_" + words[4] == "test_hamster" && "test_" + words[6] == "test_gopher";
  }

  /** None of the vector's lines holds a '\n'. */
  lemma NoNewlineInVectorLine(line: string)
    requires line in ["", "void test_cat", "void test_dog", "int test_robot", "void test_hamster", "1 + 2 = 3"]
    ensures '\n' !in line
  {
  }

  /** The multi-line vector: a leading empty line, four test lines, and two
      lines (`int test_robot`, `1 + 2 = 3`) that are not tests; the last line
      has no newline after it. */
  lemma MultiLineVector()
    ensures FindTests(LineReader.JoinLines(["", "void test_cat", "void test_dog", "int test_robot", "void test_hamster", "1 + 2 = 3"])
                      + "void test_gopher")
         == Ok(["test_cat", "test_dog", "test_hamster", "test_gopher"])
  {
    var lines := ["", "void test_cat", "void test_dog", "int test_robot", "void test_hamster", "1 + 2 = 3"];
    forall n | 0 <= n < |lines|
      ensures '\n' !in lines[n]
    {
      NoNewlineInVectorLine(lines[n]);
    }
    LineReader.LinesOfUnterminated(lines, "void test_gopher");
    MultiLineMatches(lines + ["void test_gopher"]);
  }
}
