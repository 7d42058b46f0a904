/** The line reader `findTests` drives (main.go:149-161): a `bufio.Reader`
    over the whole file, asked repeatedly for `ReadLine`. Lines are the
    segments between '\n' characters; a line that does not fit in the
    reader's buffer comes back in pieces with `isPrefix` set, which the
    caller treats as an error. */
module LineReader {
  import opened Results

  /** bufio never uses a buffer smaller than 16 bytes. */
  type BufferSize = n: nat | 16 <= n witness 16

  /** The size `bufio.NewReader` picks. */
  const DefaultBufferSize: BufferSize := 4096

  function Min(a: nat, b: nat): nat {
    if a <= b then a else b
  }

  /** The first '\n' in `text[i..end]`, or `end` when there is none. */
  function FirstNewline(text: string, i: nat, end: nat): (k: nat)
    requires i <= end <= |text|
    ensures i <= k <= end
    ensures k < end ==> text[k] == '\n'
    ensures forall j :: i <= j < k ==> text[j] != '\n'
    decreases end - i
  {
    if i == end then end else if text[i] == '\n' then i else FirstNewline(text, i + 1, end)
  }

  /** Searching a shorter window finds the same newline when the window
      reaches it, and nothing otherwise. */
  lemma FirstNewlineInWindow(text: string, i: nat, end: nat)
    requires i <= end <= |text|
    ensures FirstNewline(text, i, end) ==
      if FirstNewline(text, i, |text|) < end then FirstNewline(text, i, |text|) else end
  {
    var k, w := FirstNewline(text, i, |text|), FirstNewline(text, i, end);
    if k < end {
      assert text[k] == '\n';
    }
  }

  /** The declarative view: the '\n'-separated segments of `text[i..]`,
      where the empty segment after a final '\n' is not a line. */
  function LinesFrom(text: string, i: nat): seq<string>
    requires i <= |text|
    decreases |text| - i
  {
    if i == |text| then []
    else
      var k := FirstNewline(text, i, |text|);
      if k == |text| then [text[i..]] else [text[i..k]] + LinesFrom(text, k + 1)
  }

  function Lines(text: string): seq<string> {
    LinesFrom(text, 0)
  }

  /** No line holds a '\n'. */
  lemma {:induction false} LinesHaveNoNewline(text: string, i: nat)
    requires i <= |text|
    ensures forall n :: 0 <= n < |LinesFrom(text, i)| ==> '\n' !in LinesFrom(text, i)[n]
    decreases |text| - i
  {
    if i < |text| {
      var k := FirstNewline(text, i, |text|);
      assert '\n' !in text[i..k];
      if k < |text| {
        LinesHaveNoNewline(text, k + 1);
      }
    }
  }

  /** Writes every line followed by '\n'. */
  function JoinLines(ls: seq<string>): string {
    if |ls| == 0 then [] else ls[0] + "\n" + JoinLines(ls[1..])
  }

  predicate EndsLine(text: string) {
    |text| == 0 || text[|text| - 1] == '\n'
  }

  /** The text with a '\n' added when its last line lacks one. */
  function Terminated(text: string): string {
    if EndsLine(text) then text else text + "\n"
  }

  /** Splitting `text[i..]` and re-joining the lines restores it, except
      that a last line without its '\n' gets one. */
  predicate Rejoins(text: string, i: nat) {
    i <= |text| && JoinLines(LinesFrom(text, i)) == Terminated(text[i..])
  }

  lemma {:induction false} JoinLinesOfLinesFrom(text: string, i: nat)
    requires i <= |text|
    ensures Rejoins(text, i)
    decreases |text| - i
  {
    if i == |text| {
      JoinNoLines(text);
    } else {
      var k := FirstNewline(text, i, |text|);
      if k == |text| {
        JoinLastLine(text, i);
      } else {
        JoinLinesOfLinesFrom(text, k + 1);
        JoinAfterNewline(text, i, k);
      }
    }
  }

  /** `JoinLinesOfLinesFrom` at the end of the text. */
  lemma JoinNoLines(text: string)
    ensures Rejoins(text, |text|)
  {
    assert text[|text|..] == [];
  }

  /** `JoinLinesOfLinesFrom` for a last line without '\n'. */
  lemma JoinLastLine(text: string, i: nat)
    requires i < |text| && FirstNewline(text, i, |text|) == |text|
    ensures Rejoins(text, i)
  {
    var t := text[i..];
    LinesFromWithoutNewline(text, i);
    JoinLinesCons(t, []);
    assert t[|t| - 1] == text[|text| - 1] != '\n';
  }

  /** The step of `JoinLinesOfLinesFrom` past one '\n'. */
  lemma JoinAfterNewline(text: string, i: nat, k: nat)
    requires i <= k < |text| && k == FirstNewline(text, i, |text|)
    requires Rejoins(text, k + 1)
    ensures Rejoins(text, i)
  {
    LinesFromAtNewline(text, i, k);
    JoinLinesCons(text[i..k], LinesFrom(text, k + 1));
    SplitLayout(text, i, k);
  }

  /** The first line from `i` ends at the '\n' at `k`. */
  lemma LinesFromAtNewline(text: string, i: nat, k: nat)
    requires i <= k < |text| && k == FirstNewline(text, i, |text|)
    ensures LinesFrom(text, i) == [text[i..k]] + LinesFrom(text, k + 1)
  {
  }

  /** The only line from `i` when no '\n' follows. */
  lemma LinesFromWithoutNewline(text: string, i: nat)
    requires i < |text| && FirstNewline(text, i, |text|) == |text|
    ensures LinesFrom(text, i) == [text[i..]]
  {
  }

  /** Text split around the '\n' at `k`. */
  lemma SplitLayout(text: string, i: nat, k: nat)
    requires i <= k < |text| && text[k] == '\n'
    ensures Terminated(text[i..]) == text[i..k] + "\n" + Terminated(text[k + 1..])
  {
    var t, rest := text[i..], text[k + 1..];
    assert t == text[i..k] + "\n" + rest;
    if |rest| > 0 {
      assert t[|t| - 1] == rest[|rest| - 1];
    } else {
      assert t[|t| - 1] == text[k];
    }
    if !EndsLine(t) {
      assert t + "\n" == text[i..k] + "\n" + (rest + "\n");
    }
  }

  /** Joining a line in front of others. */
  lemma JoinLinesCons(l: string, ls: seq<string>)
    ensures JoinLines([l] + ls) == l + "\n" + JoinLines(ls)
  {
    assert ([l] + ls)[1..] == ls;
  }

  lemma JoinLinesOfLines(text: string)
    ensures JoinLines(Lines(text)) == Terminated(text)
  {
    JoinLinesOfLinesFrom(text, 0);
    assert Rejoins(text, 0);
    assert text[0..] == text;
  }

  /** Joining lines that hold no '\n', optionally followed by an
      unterminated last line, and splitting again gives them back, whatever
      text precedes them. */
  lemma {:induction false} LinesFromJoinLines(prefix: string, ls: seq<string>, last: string)
    requires forall n :: 0 <= n < |ls| ==> '\n' !in ls[n]
    requires '\n' !in last
    ensures LinesFrom(prefix + JoinLines(ls) + last, |prefix|) == ls + (if |last| > 0 then [last] else [])
    decreases |ls|
  {
    if |ls| > 0 {
      LinesFromJoinLines(prefix + ls[0] + "\n", ls[1..], last);
      LinesFromJoinLinesCons(prefix, ls[0], ls[1..], last);
      assert [ls[0]] + ls[1..] == ls;
    } else {
      var text := prefix + JoinLines(ls) + last;
      assert text == prefix + last;
      if |last| > 0 {
        assert text[|prefix|..] == last;
        LinesFromLast(text, |prefix|);
      }
    }
  }

  /** The step of `LinesFromJoinLines` past its first line. */
  lemma LinesFromJoinLinesCons(prefix: string, l: string, ls: seq<string>, last: string)
    requires '\n' !in l
    requires LinesFrom(prefix + l + "\n" + JoinLines(ls) + last, |prefix| + |l| + 1) ==
      ls + (if |last| > 0 then [last] else [])
    ensures LinesFrom(prefix + JoinLines([l] + ls) + last, |prefix|) ==
      [l] + ls + (if |last| > 0 then [last] else [])
  {
    var text := prefix + JoinLines([l] + ls) + last;
    JoinedLayout(prefix, l, ls, last);
    LinesFromStep(text, |prefix|, l);
  }

  /** Where the first line and its '\n' sit in joined text. */
  lemma JoinedLayout(prefix: string, l: string, ls: seq<string>, last: string)
    ensures var text := prefix + JoinLines([l] + ls) + last;
      && text == prefix + l + "\n" + JoinLines(ls) + last
      && |prefix| + |l| < |text|
      && text[|prefix|..|prefix| + |l|] == l
      && text[|prefix| + |l|] == '\n'
  {
    JoinLinesCons(l, ls);
  }

  /** The first line from `p` is `l` when `l` is followed by a '\n'. */
  lemma LinesFromStep(text: string, p: nat, l: string)
    requires p + |l| < |text| && text[p..p + |l|] == l && '\n' !in l && text[p + |l|] == '\n'
    ensures LinesFrom(text, p) == [l] + LinesFrom(text, p + |l| + 1)
  {
    forall j | p <= j < p + |l|
      ensures text[j] != '\n'
    {
      assert text[j] == l[j - p];
    }
    FirstNewlineIs(text, p, |text|, p + |l|);
  }

  /** `text[p..]` is the only line from `p` when it holds no '\n'. */
  lemma LinesFromLast(text: string, p: nat)
    requires p < |text| && '\n' !in text[p..]
    ensures LinesFrom(text, p) == [text[p..]]
  {
    forall j | p <= j < |text|
      ensures text[j] != '\n'
    {
      assert text[j] == text[p..][j - p];
    }
    FirstNewlineIs(text, p, |text|, |text|);
  }

  /** `FirstNewline` is determined by its contract. */
  lemma FirstNewlineIs(text: string, i: nat, end: nat, k: nat)
    requires i <= k <= end <= |text|
    requires forall j :: i <= j < k ==> text[j] != '\n'
    requires k < end ==> text[k] == '\n'
    ensures FirstNewline(text, i, end) == k
  {
    var f := FirstNewline(text, i, end);
    assert f < end ==> text[f] == '\n';
  }

  lemma LinesOfJoinLines(ls: seq<string>)
    requires forall n :: 0 <= n < |ls| ==> '\n' !in ls[n]
    ensures Lines(JoinLines(ls)) == ls
  {
    LinesFromJoinLines([], ls, []);
    assert [] + JoinLines(ls) == JoinLines(ls);
    assert JoinLines(ls) + [] == JoinLines(ls);
  }

  /** Text whose last line lacks its '\n' still splits into those lines. */
  lemma LinesOfUnterminated(ls: seq<string>, last: string)
    requires forall n :: 0 <= n < |ls| ==> '\n' !in ls[n]
    requires '\n' !in last && |last| > 0
    ensures Lines(JoinLines(ls) + last) == ls + [last]
  {
    LinesFromJoinLines([], ls, last);
    assert [] + JoinLines(ls) == JoinLines(ls);
  }

  /** What one `ReadLine` call returns. */
  datatype ReadStep =
    | Line(line: string, next: nat)   // a whole line and the offset after it
    | EndOfInput                      // io.EOF
    | TooLong                         // isPrefix: the line filled the buffer

  /** One `bufio.Reader.ReadLine` call at offset `pos`. The reader looks at
      most `size` bytes from the start of the line: a '\n' among them ends
      the line; running out of input first yields the unterminated last
      line; a full buffer without '\n' is reported as a prefix. */
  function ReadLine(text: string, pos: nat, size: BufferSize): (r: ReadStep)
    requires pos <= |text|
    ensures r.EndOfInput? <==> pos == |text|
    ensures r.Line? ==> pos < r.next <= |text| && |r.line| < size && pos + |r.line| <= |text|
    ensures r.Line? ==> r.line == text[pos..pos + |r.line|] && '\n' !in r.line
    ensures r.Line? ==> r.next == pos + |r.line| + 1 || r.next == pos + |r.line| == |text|
    ensures r.Line? && r.next == pos + |r.line| + 1 ==> pos + |r.line| < |text| && text[pos + |r.line|] == '\n'
    ensures r.TooLong? <==> pos + size <= |text| && '\n' !in text[pos..pos + size]
  {
    if pos == |text| then EndOfInput
    else
      var end := pos + Min(size, |text| - pos);
      var k := FirstNewline(text, pos, end);
      assert '\n' !in text[pos..k];
      if k < end then Line(text[pos..k], k + 1)
      else if end - pos < size then Line(text[pos..end], |text|)
      else TooLong
  }

  datatype ReadError = LineTooLong

  /** Calls `ReadLine` until end of input, collecting the lines; a line
      reported as a prefix ends the loop with an error. */
  function ReadAll(text: string, pos: nat, size: BufferSize): (r: Result<seq<string>, ReadError>)
    requires pos <= |text|
    ensures r.Ok? ==> AllShorterThan(r.value, size)
    ensures r.Ok? ==> forall n :: 0 <= n < |r.value| ==> '\n' !in r.value[n]
    decreases |text| - pos
  {
    match ReadLine(text, pos, size)
    case EndOfInput => Ok([])
    case TooLong => Err(LineTooLong)
    case Line(l, next) =>
      match ReadAll(text, next, size)
      case Ok(ls) => Ok([l] + ls)
      case Err(e) => Err(e)
  }

  predicate AllShorterThan(ls: seq<string>, size: nat) {
    forall n :: 0 <= n < |ls| ==> |ls[n]| < size
  }

  /** One `ReadLine` call at `pos` returns the first declarative line of
      the remaining text when it is shorter than the buffer, and reports a
      prefix otherwise; after a line, the remaining lines follow. */
  lemma ReadLineIsFirstLine(text: string, pos: nat, size: BufferSize)
    requires pos < |text|
    ensures |LinesFrom(text, pos)| > 0
    ensures var ls := LinesFrom(text, pos);
      if |ls[0]| < size then
        && ReadLine(text, pos, size).Line?
        && ReadLine(text, pos, size).line == ls[0]
        && LinesFrom(text, ReadLine(text, pos, size).next) == ls[1..]
      else ReadLine(text, pos, size) == TooLong
  {
    var k := FirstNewline(text, pos, |text|);
    var ls := LinesFrom(text, pos);
    ReadLineWindow(text, pos, size);
    if k < |text| {
      LinesFromAtNewline(text, pos, k);
      assert ls[0] == text[pos..k] && ls[1..] == LinesFrom(text, k + 1);
    } else {
      LinesFromWithoutNewline(text, pos);
      assert ls[0] == text[pos..] && ls[1..] == [] == LinesFrom(text, |text|);
    }
  }

  /** What `ReadLine` answers in terms of the first '\n' after `pos`: the
      line before it when that is shorter than the buffer (or the rest of
      the text when there is no '\n'), a prefix otherwise. */
  lemma ReadLineWindow(text: string, pos: nat, size: BufferSize)
    requires pos < |text|
    ensures var k := FirstNewline(text, pos, |text|);
      && (k - pos < size ==> ReadLine(text, pos, size) == Line(text[pos..k], Min(k + 1, |text|)))
      && (k - pos >= size ==> ReadLine(text, pos, size) == TooLong)
  {
    var k := FirstNewline(text, pos, |text|);
    var end := pos + Min(size, |text| - pos);
    FirstNewlineInWindow(text, pos, end);
    if k - pos < size {
      if k < |text| {
        assert FirstNewline(text, pos, end) == k < end;
      } else {
        assert FirstNewline(text, pos, end) == end == |text|;
      }
    } else {
      assert FirstNewline(text, pos, end) == end == pos + size;
    }
  }

  /** The reader yields exactly the declarative lines when every one of
      them is shorter than the buffer, and fails otherwise; a long line is
      never split, truncated or merged with its neighbour. */
  lemma {:induction false} ReadAllIsLines(text: string, pos: nat, size: BufferSize)
    requires pos <= |text|
    ensures ReadAll(text, pos, size) ==
      if AllShorterThan(LinesFrom(text, pos), size) then Ok(LinesFrom(text, pos)) else Err(LineTooLong)
    decreases |text| - pos
  {
    if pos < |text| {
      ReadLineIsFirstLine(text, pos, size);
      var ls := LinesFrom(text, pos);
      if |ls[0]| < size {
        var next := ReadLine(text, pos, size).next;
        ReadAllIsLines(text, next, size);
        assert AllShorterThan(ls, size) <==> AllShorterThan(ls[1..], size) by {
          assert forall n :: 0 < n < |ls| ==> ls[n] == ls[1..][n - 1];
        }
        assert ls == [ls[0]] + ls[1..];
      }
    }
  }

  /** `ReadAll` from the start of the text. */
  lemma ReadAllFromStart(text: string, size: BufferSize)
    ensures ReadAll(text, 0, size) ==
      if AllShorterThan(Lines(text), size) then Ok(Lines(text)) else Err(LineTooLong)
  {
    ReadAllIsLines(text, 0, size);
  }
}
