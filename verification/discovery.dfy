/** Test discovery (`findTests`, main.go:143-168): every line of a suite
    file is searched for the leftmost match of the unanchored pattern
    `void (test_[[:word:]]+).*`, and the captured names are collected in
    line order. */
module Discovery {
  import opened Results
  import LineReader

  /** `[[:word:]]`: ASCII letters, digits and underscore. */
  predicate IsWordChar(c: char) {
    'a' <= c <= 'z' || 'A' <= c <= 'Z' || '0' <= c <= '9' || c == '_'
  }

  /** The literal part of the pattern: `void`, one space, and the start of
      the capture. */
  const Marker: string := "void test_"

  /** The capture group starts after "void ". */
  const CaptureStart: nat := 5

  /** The pattern matches at `i`: the marker, then at least one word
      character (the `+` of the capture). */
  predicate MatchesAt(line: string, i: nat) {
    i + |Marker| < |line| && line[i..i + |Marker|] == Marker && IsWordChar(line[i + |Marker|])
  }

  /** `i` is the leftmost position the pattern matches at. */
  predicate LeftmostAt(line: string, i: nat) {
    MatchesAt(line, i) && forall j :: 0 <= j < i ==> !MatchesAt(line, j)
  }

  /** The end of the maximal run of word characters starting at `j`. */
  function WordRunEnd(s: string, j: nat): (e: nat)
    requires j <= |s|
    ensures j <= e <= |s|
    ensures forall k :: j <= k < e ==> IsWordChar(s[k])
    ensures e < |s| ==> !IsWordChar(s[e])
    decreases |s| - j
  {
    if j < |s| && IsWordChar(s[j]) then WordRunEnd(s, j + 1) else j
  }

  /** What the capture group holds for a match at `i`: "test_" and the
      greedy (maximal) run of word characters after it. */
  function Capture(line: string, i: nat): string
    requires MatchesAt(line, i)
  {
    line[i + CaptureStart .. WordRunEnd(line, i + |Marker|)]
  }

  /** A well-formed test name: "test_" and one or more word characters. */
  predicate IsTestName(n: string) {
    |n| > |"test_"| && n[..|"test_"|] == "test_" && forall k :: 0 <= k < |n| ==> IsWordChar(n[k])
  }

  /** No match starts at a position in `[i, j)`. */
  predicate NoMatchBetween(line: string, i: nat, j: nat) {
    forall k :: i <= k < j ==> !MatchesAt(line, k)
  }

  /** Tries the positions `i`, `i + 1`, ... in turn, as the unanchored
      search does, and answers the first one the pattern matches at. */
  function FirstMatchFrom(line: string, i: nat): (r: Option<nat>)
    requires i <= |line|
    ensures r.None? ==> NoMatchBetween(line, i, |line|)
    ensures r.Some? ==> i <= r.value && MatchesAt(line, r.value) && NoMatchBetween(line, i, r.value)
    decreases |line| - i
  {
    if i + |Marker| >= |line| then None
    else if MatchesAt(line, i) then Some(i)
    else FirstMatchFrom(line, i + 1)
  }

  /** `FindSubmatch` on one line: the capture of the leftmost match, or
      nothing when the pattern does not occur. */
  function FindSubmatch(line: string): (r: Option<string>)
    ensures r.None? ==> forall i :: !MatchesAt(line, i)
    ensures forall i :: LeftmostAt(line, i) ==> r == Some(Capture(line, i))
    ensures r.Some? ==> IsTestName(r.value)
  {
    match FirstMatchFrom(line, 0)
    case None => None
    case Some(i) =>
      CaptureIsTestName(line, i);
      Some(Capture(line, i))
  }

  lemma CaptureIsTestName(line: string, i: nat)
    requires MatchesAt(line, i)
    ensures IsTestName(Capture(line, i))
  {
    var c := Capture(line, i);
    var m := line[i .. i + |Marker|];
    assert m == Marker;
    assert Marker[5..] == "test_";
    forall k | 0 <= k < 5
      ensures c[k] == "test_"[k]
    {
      assert c[k] == line[i + 5 + k] == m[5 + k];
    }
    assert c[..5] == "test_";
    forall k | 0 <= k < |c|
      ensures IsWordChar(c[k])
    {
      if k < 5 {
        assert c[k] == Marker[5 + k];
      } else {
        assert c[k] == line[i + 5 + k];
      }
    }
  }

  /** What each line yields, line by line. */
  function LineResults(lines: seq<string>): (rs: seq<Option<string>>)
    ensures |rs| == |lines|
    ensures forall k :: 0 <= k < |lines| ==> rs[k] == FindSubmatch(lines[k])
  {
    seq(|lines|, k requires 0 <= k < |lines| => FindSubmatch(lines[k]))
  }

  /** The present values, in order. */
  function Present(rs: seq<Option<string>>): (ns: seq<string>)
    ensures |ns| <= |rs|
  {
    if |rs| == 0 then [] else rs[0].ToSeq() + Present(rs[1..])
  }

  /** The names found in `lines`, in line order, at most one per line. */
  function Names(lines: seq<string>): (ns: seq<string>)
    ensures |ns| <= |lines|
  {
    Present(LineResults(lines))
  }

  datatype DiscoveryError = LineTooLong

  /** `findTests` with the reader's buffer size as a parameter. A line that
      does not fit in the buffer ends the program in the source; here it is
      an error result. Since that exit discards everything, collecting all
      lines first and matching afterwards gives the same outcome as the
      source's interleaved loop. */
  function FindTestsWithBuffer(code: string, size: LineReader.BufferSize): (r: Result<seq<string>, DiscoveryError>)
    ensures r.Ok? <==> LineReader.AllShorterThan(LineReader.Lines(code), size)
    ensures r.Ok? ==> r.value == Names(LineReader.Lines(code))
  {
    LineReader.ReadAllFromStart(code, size);
    match LineReader.ReadAll(code, 0, size)
    case Ok(lines) => Ok(Names(lines))
    case Err(_) => Err(LineTooLong)
  }

  /** `findTests` as the source calls it, with bufio's default buffer. */
  function FindTests(code: string): (r: Result<seq<string>, DiscoveryError>)
    ensures r.Ok? <==> LineReader.AllShorterThan(LineReader.Lines(code), LineReader.DefaultBufferSize)
    ensures r.Ok? ==> r.value == Names(LineReader.Lines(code))
  {
    FindTestsWithBuffer(code, LineReader.DefaultBufferSize)
  }
}

module DiscoveryFacts {
  import opened Results
  import LineReader
  import opened Discovery

  /** `WordRunEnd` is determined by its contract: any end of a maximal run
      of word characters is the one it returns. */
  lemma WordRunEndIs(s: string, j: nat, e: nat)
    requires j <= e <= |s|
    requires forall k :: j <= k < e ==> IsWordChar(s[k])
    requires e < |s| ==> !IsWordChar(s[e])
    ensures WordRunEnd(s, j) == e
  {
  }

  predicate IsWordRun(w: string) {
    forall k :: 0 <= k < |w| ==> IsWordChar(w[k])
  }

  /** A line that starts with the marker and a run of word characters ends
      its capture at the first non-word character; the rest of the line is
      ignored. */
  lemma {:induction false} MarkerAtStart(w: string, rest: string)
    requires |w| > 0 && IsWordRun(w)
    requires |rest| > 0 ==> !IsWordChar(rest[0])
    ensures FindSubmatch(Marker + w + rest) == Some("test_" + w)
  {
    var line := Marker + w + rest;
    assert line[0..|Marker|] == Marker;
    assert line[|Marker|] == w[0];
    assert MatchesAt(line, 0);
    assert LeftmostAt(line, 0);
    forall k | |Marker| <= k < |Marker| + |w|
      ensures IsWordChar(line[k])
    {
      assert line[k] == w[k - |Marker|];
    }
    if |Marker| + |w| < |line| {
      assert line[|Marker| + |w|] == rest[0];
    }
    WordRunEndIs(line, |Marker|, |Marker| + |w|);
    assert line[CaptureStart .. |Marker| + |w|] == "test_" + w;
  }

  /** The pattern starts with 'v': a line without one has no match. */
  lemma {:induction false} NoMatchWithoutV(line: string)
    requires forall k :: 0 <= k < |line| ==> line[k] != 'v'
    ensures FindSubmatch(line) == None
  {
    forall i: nat
      ensures !MatchesAt(line, i)
    {
      if i + |Marker| < |line| {
        assert line[i..i + |Marker|][0] == line[i];
      }
    }
  }

  /** A name is found exactly when the pattern occurs somewhere in the
      line, and it is the capture of the leftmost occurrence. */
  lemma FindSubmatchFound(line: string)
    ensures FindSubmatch(line).Some? <==> exists i :: MatchesAt(line, i)
    ensures FindSubmatch(line).Some? ==>
      exists i :: LeftmostAt(line, i) && FindSubmatch(line) == Some(Capture(line, i))
  {
    var f := FirstMatchFrom(line, 0);
    if f.Some? {
      assert LeftmostAt(line, f.value);
    }
  }

  /** Text after a completed capture never changes the result: appending
      anything to a line whose capture ends before the line does leaves
      the found name unchanged. */
  lemma {:induction false} TextAfterCaptureIgnored(line: string, i: nat, rest: string)
    requires LeftmostAt(line, i)
    requires WordRunEnd(line, i + |Marker|) < |line|
    ensures FindSubmatch(line + rest) == FindSubmatch(line)
  {
    var line' := line + rest;
    assert line'[..|line|] == line;
    forall j: nat | j <= i
      ensures MatchesAt(line', j) <==> MatchesAt(line, j)
    {
      assert line'[j..j + |Marker|] == line[j..j + |Marker|];
    }
    assert LeftmostAt(line', i);
    var e := WordRunEnd(line, i + |Marker|);
    WordRunEndIs(line', i + |Marker|, e);
    assert Capture(line', i) == Capture(line, i);
  }

  /** A '\r' at the end of a line (left there by a "\r\n" line ending) is
      not a word character and never changes what the line yields. */
  lemma {:induction false} TrailingCarriageReturn(line: string)
    ensures FindSubmatch(line + "\r") == FindSubmatch(line)
  {
    var line' := line + "\r";
    forall j: nat
      ensures MatchesAt(line', j) <==> MatchesAt(line, j)
    {
      if j + |Marker| < |line| {
        assert line'[j..j + |Marker|] == line[j..j + |Marker|];
        assert line'[j + |Marker|] == line[j + |Marker|];
      } else if j + |Marker| == |line| {
        assert line'[j + |Marker|] == '\r';
      }
    }
    if FirstMatchFrom(line, 0).Some? {
      var i := FirstMatchFrom(line, 0).value;
      assert LeftmostAt(line, i) && LeftmostAt(line', i);
      var e := WordRunEnd(line, i + |Marker|);
      if e < |line| {
        assert line'[e] == line[e];
      } else {
        assert line'[e] == '\r';
      }
      WordRunEndIs(line', i + |Marker|, e);
      assert Capture(line', i) == Capture(line, i);
    }
  }

  lemma {:induction false} PresentAppend(a: seq<Option<string>>, b: seq<Option<string>>)
    ensures Present(a + b) == Present(a) + Present(b)
    decreases |a|
  {
    if |a| > 0 {
      PresentAppend(a[1..], b);
      assert (a + b)[0] == a[0];
      assert (a + b)[1..] == a[1..] + b;
    } else {
      assert a + b == b;
    }
  }

  /** The names of consecutive blocks of lines follow each other: each line
      contributes in place, none are merged, dropped or reordered. */
  lemma NamesAppend(a: seq<string>, b: seq<string>)
    ensures Names(a + b) == Names(a) + Names(b)
  {
    assert LineResults(a + b) == LineResults(a) + LineResults(b);
    PresentAppend(LineResults(a), LineResults(b));
  }

  /** One line contributes exactly what its leftmost match captures. */
  lemma NamesOfOneLine(line: string)
    ensures Names([line]) == FindSubmatch(line).ToSeq()
  {
    assert LineResults([line]) == [FindSubmatch(line)];
    assert [FindSubmatch(line)][1..] == [];
  }

  /** Knowing what each line yields determines the names. */
  lemma NamesFromResults(lines: seq<string>, rs: seq<Option<string>>)
    requires |rs| == |lines|
    requires forall k :: 0 <= k < |lines| ==> FindSubmatch(lines[k]) == rs[k]
    ensures Names(lines) == Present(rs)
  {
    assert LineResults(lines) == rs;
  }

  /** The first line's contribution comes first. */
  lemma NamesCons(lines: seq<string>)
    requires |lines| > 0
    ensures Names(lines) == FindSubmatch(lines[0]).ToSeq() + Names(lines[1..])
  {
    NamesAppend([lines[0]], lines[1..]);
    NamesOfOneLine(lines[0]);
    assert [lines[0]] + lines[1..] == lines;
  }

  /** Lines without a match contribute nothing. */
  lemma {:induction false} NamesWithoutMatches(lines: seq<string>)
    requires forall k, i :: 0 <= k < |lines| ==> !MatchesAt(lines[k], i)
    ensures Names(lines) == []
    decreases |lines|
  {
    if |lines| > 0 {
      NamesCons(lines);
      NamesWithoutMatches(lines[1..]);
      assert forall i :: !MatchesAt(lines[0], i);
    }
  }

  /** The same test line written twice is found twice: no deduplication. */
  lemma DuplicatesKept(line: string, name: string)
    requires FindSubmatch(line) == Some(name)
    ensures Names([line, line]) == [name, name]
  {
    NamesAppend([line], [line]);
    NamesOfOneLine(line);
    assert [line, line] == [line] + [line];
  }

  /** Every name found is the capture of one of the lines. */
  lemma {:induction false} NamesComeFromLines(lines: seq<string>, n: string)
    requires n in Names(lines)
    ensures exists k :: 0 <= k < |lines| && FindSubmatch(lines[k]) == Some(n)
    decreases |lines|
  {
    NamesCons(lines);
    if FindSubmatch(lines[0]) != Some(n) {
      NamesComeFromLines(lines[1..], n);
      var k :| 0 <= k < |lines[1..]| && FindSubmatch(lines[1..][k]) == Some(n);
      assert lines[k + 1] == lines[1..][k];
    }
  }

  /** Every name found is "test_" followed by word characters only. */
  lemma {:induction false} NamesAreTestNames(lines: seq<string>)
    ensures forall k :: 0 <= k < |Names(lines)| ==> IsTestName(Names(lines)[k])
    decreases |lines|
  {
    if |lines| > 0 {
      NamesCons(lines);
      NamesAreTestNames(lines[1..]);
    }
  }

  /** Empty input finds nothing and is not an error. */
  lemma FindTestsOfEmpty(size: LineReader.BufferSize)
    ensures FindTestsWithBuffer([], size) == Ok([])
  {
  }

  /** Input whose lines carry no marker finds nothing, provided no line
      overflows the buffer. */
  lemma FindTestsWithoutMatches(code: string, size: LineReader.BufferSize)
    requires LineReader.AllShorterThan(LineReader.Lines(code), size)
    requires forall k, i :: 0 <= k < |LineReader.Lines(code)| ==> !MatchesAt(LineReader.Lines(code)[k], i)
    ensures FindTestsWithBuffer(code, size) == Ok([])
  {
    NamesWithoutMatches(LineReader.Lines(code));
  }

  /** A line that overflows the buffer is an error wherever it occurs,
      even when other lines hold tests. */
  lemma LongLineFails(before: seq<string>, long: string, after: seq<string>, size: LineReader.BufferSize)
    requires forall k :: 0 <= k < |before| ==> '\n' !in before[k]
    requires forall k :: 0 <= k < |after| ==> '\n' !in after[k]
    requires '\n' !in long && |long| >= size
    ensures FindTestsWithBuffer(LineReader.JoinLines(before + [long] + after), size).Err?
  {
    var ls := before + [long] + after;
    assert forall k :: 0 <= k < |ls| ==> '\n' !in ls[k];
    LineReader.LinesOfJoinLines(ls);
    assert ls[|before|] == long;
  }
}
