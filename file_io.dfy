/**
 * The line and byte helpers of the file service (`app/services/file_io.py`):
 * splitting text into lines that keep their endings, detecting the line-ending
 * style, the separator a style writes, the join `write_file` performs, the
 * byte-order-mark check and the binary-chunk heuristic.
 */
module FileIO {
  import opened Wrappers
  import opened TextUtil
  import opened Models

  /** `LineEnding`; `NONE` is `NoEnding`. */
  datatype LineEnding = LF | CRLF | CR | Mixed | NoEnding

  predicate IsTerminator(c: char)
  {
    c == '\n' || c == '\r'
  }

  predicate NoTerminator(s: string)
  {
    forall i :: 0 <= i < |s| ==> !IsTerminator(s[i])
  }

  // ---------------------------------------------------------------- _split_lines_preserve_endings

  /** The length of the first line of `s`, its ending included: up to the first `\n`, `\r\n` or lone `\r`. */
  function FirstLineLength(s: string): (n: nat)
    requires s != []
    ensures 0 < n <= |s|
    decreases |s|
  {
    if s[0] == '\n' then 1
    else if s[0] == '\r' then (if |s| > 1 && s[1] == '\n' then 2 else 1)
    else if |s| == 1 then 1
    else 1 + FirstLineLength(s[1..])
  }

  /** The lines of `s`, each keeping its ending; a trailing piece without ending is the last line. */
  function SplitLines(s: string): (lines: seq<string>)
    ensures forall k :: 0 <= k < |lines| ==> lines[k] != []
    decreases |s|
  {
    if s == [] then [] else [s[..FirstLineLength(s)]] + SplitLines(s[FirstLineLength(s)..])
  }

  /** After a prefix without terminators, the first line runs on through the first line of the rest. */
  lemma {:induction false} FirstLineAfter(pre: string, rest: string)
    requires NoTerminator(pre) && pre + rest != []
    ensures rest == [] ==> FirstLineLength(pre + rest) == |pre|
    ensures rest != [] ==> FirstLineLength(pre + rest) == |pre| + FirstLineLength(rest)
    decreases |pre|
  {
    if pre != [] {
      var s := pre + rest;
      assert s[0] == pre[0];
      if |s| > 1 {
        assert s[1..] == pre[1..] + rest;
        assert NoTerminator(pre[1..]);
        FirstLineAfter(pre[1..], rest);
      }
    } else {
      assert pre + rest == rest;
    }
  }

  /** The loop state of `_split_lines_preserve_endings`: the finished lines, then the lines of the buffer and the rest. */
  ghost predicate SplitSoFar(content: string, i: int, lines: seq<string>, current: string)
  {
    0 <= i <= |content| && NoTerminator(current)
    && lines + SplitLines(current + content[i..]) == SplitLines(content)
  }

  /** The first line of `line + rest`, whose ending `line` closes, is `line`. */
  lemma SplitAfterLine(content: string, i: int, lines: seq<string>, current: string, ending: string)
    requires SplitSoFar(content, i, lines, current)
    requires i + |ending| <= |content| && content[i..i + |ending|] == ending
    requires ending == "\n" || ending == "\r\n" || (ending == "\r" && (i + 1 == |content| || content[i + 1] != '\n'))
    ensures SplitSoFar(content, i + |ending|, lines + [current + ending], [])
  {
    var rest := content[i..];
    var s := current + rest;
    assert rest[..|ending|] == ending;
    assert rest[0] == ending[0];
    assert |ending| == 2 ==> rest[1] == '\n';
    assert ending == "\r" ==> |rest| == 1 || rest[1] != '\n';
    FirstLineAfter(current, rest);
    assert FirstLineLength(rest) == |ending|;
    assert s[..|current| + |ending|] == current + ending;
    assert s[|current| + |ending|..] == [] + content[i + |ending|..];
    assert NoTerminator([]);
  }

  lemma SplitAtTerminator(content: string, i: int, lines: seq<string>, current: string, n: int)
    requires SplitSoFar(content, i, lines, current) && i < |content| && IsTerminator(content[i])
    requires n == if content[i] == '\r' && i + 1 < |content| && content[i + 1] == '\n' then 2 else 1
    ensures SplitSoFar(content, i + n, lines + [current + content[i..i + n]], [])
  {
    var ending := content[i..i + n];
    assert ending == if n == 2 then "\r\n" else [content[i]];
    SplitAfterLine(content, i, lines, current, ending);
  }

  lemma SplitStart(content: string)
    ensures SplitSoFar(content, 0, [], [])
  {
    assert [] + content[0..] == content;
  }

  lemma SplitKeep(content: string, i: int, lines: seq<string>, current: string)
    requires SplitSoFar(content, i, lines, current) && i < |content| && !IsTerminator(content[i])
    ensures SplitSoFar(content, i + 1, lines, current + [content[i]])
  {
    assert current + content[i..] == (current + [content[i]]) + content[i + 1..];
  }

  lemma SplitDone(content: string, lines: seq<string>, current: string)
    requires SplitSoFar(content, |content|, lines, current)
    ensures (if current == [] then lines else lines + [current]) == SplitLines(content)
  {
    assert current + content[|content|..] == current;
    if current != [] {
      FirstLineAfter(current, []);
      assert current + [] == current;
      assert current[|current|..] == [];
    }
  }

  /** `_split_lines_preserve_endings`: a character scan with a buffer for the line in progress. */
  method SplitLinesPreserveEndings(content: string) returns (lines: seq<string>)
    ensures lines == SplitLines(content)
  {
    lines := [];
    var current: string := [];
    var i := 0;
    SplitStart(content);
    while i < |content|
      invariant SplitSoFar(content, i, lines, current)
      decreases |content| - i
    {
      var c := content[i];
      if c == '\n' || c == '\r' {
        // a `\r` takes a following `\n` into the same line
        var n := if c == '\r' && i + 1 < |content| && content[i + 1] == '\n' then 2 else 1;
        SplitAtTerminator(content, i, lines, current, n);
        lines := lines + [current + content[i..i + n]];
        current := [];
        i := i + n;
      } else {
        SplitKeep(content, i, lines, current);
        current := current + [c];
        i := i + 1;
      }
    }
    SplitDone(content, lines, current);
    if current != [] {
      lines := lines + [current];
    }
  }

  /** Joining the lines gives back the content. */
  lemma {:induction false} SplitLinesConcat(s: string)
    ensures Concat(SplitLines(s)) == s
    decreases |s|
  {
    if s != [] {
      var n := FirstLineLength(s);
      SplitLinesConcat(s[n..]);
      assert s == s[..n] + s[n..];
    }
  }

  /** The ending a line carries. */
  function Ending(line: string): LineEnding
  {
    if |line| >= 2 && line[|line| - 2] == '\r' && line[|line| - 1] == '\n' then CRLF
    else if |line| >= 1 && line[|line| - 1] == '\n' then LF
    else if |line| >= 1 && line[|line| - 1] == '\r' then CR
    else NoEnding
  }

  function EndingLength(e: LineEnding): nat
  {
    match e
    case CRLF => 2
    case LF => 1
    case CR => 1
    case _ => 0
  }

  /** A line: text without terminators, then its ending, which only the last line may lack. */
  predicate LineShaped(line: string, last: bool)
  {
    line != [] && EndingLength(Ending(line)) <= |line|
    && NoTerminator(line[..|line| - EndingLength(Ending(line))])
    && (!last ==> Ending(line) != NoEnding)
  }

  /** The first line is shaped, ends unless it is all of `s`, and a lone `\r` ending is not followed by `\n`. */
  lemma {:induction false} FirstLineShape(s: string)
    requires s != []
    ensures var n := FirstLineLength(s);
      LineShaped(s[..n], n == |s|)
      && (Ending(s[..n]) == CR && n < |s| ==> s[n] != '\n')
    decreases |s|
  {
    var n := FirstLineLength(s);
    if IsTerminator(s[0]) {
      assert s[..n] == (if n == 2 then "\r\n" else [s[0]]);
    } else if |s| == 1 {
      assert s[..n] == s;
    } else {
      var t := s[1..];
      FirstLineShape(t);
      var m := FirstLineLength(t);
      assert n == 1 + m;
      assert s[..n] == [s[0]] + t[..m];
      var e := Ending(t[..m]);
      assert Ending(s[..n]) == e;
      assert s[..n][..n - EndingLength(e)] == [s[0]] + t[..m][..m - EndingLength(e)];
    }
  }

  predicate LinesShaped(lines: seq<string>)
  {
    forall k :: 0 <= k < |lines| ==> LineShaped(lines[k], k == |lines| - 1)
  }

  /** No line ending in a lone `\r` is followed by a line starting with `\n`. */
  predicate NeverSplit(lines: seq<string>)
  {
    forall k :: 0 <= k < |lines| - 1 && Ending(lines[k]) == CR ==> lines[k + 1] == [] || lines[k + 1][0] != '\n'
  }

  /**
   * Every line but the last ends in `\n`, `\r\n` or `\r` and holds no earlier
   * terminator, and a `\r\n` pair is never split between two lines.
   */
  lemma {:induction false} SplitLinesShape(s: string)
    ensures LinesShaped(SplitLines(s)) && NeverSplit(SplitLines(s))
    decreases |s|
  {
    if s != [] {
      var n := FirstLineLength(s);
      var rest := SplitLines(s[n..]);
      SplitLinesShape(s[n..]);
      FirstLineShape(s);
      var lines := SplitLines(s);
      assert lines == [s[..n]] + rest;
      assert rest == [] <==> n == |s|;
      if rest != [] {
        assert rest[0] == s[n..][..FirstLineLength(s[n..])];
        assert rest[0][0] == s[n];
      }
      forall k | 0 <= k < |lines|
        ensures LineShaped(lines[k], k == |lines| - 1)
      {
        if k > 0 {
          assert lines[k] == rest[k - 1];
          assert LineShaped(rest[k - 1], k - 1 == |rest| - 1);
        }
      }
      forall k | 0 <= k < |lines| - 1 && Ending(lines[k]) == CR
        ensures lines[k + 1][0] != '\n'
      {
        if k > 0 {
          assert lines[k] == rest[k - 1] && lines[k + 1] == rest[k];
          assert k - 1 < |rest| - 1;
        }
      }
    }
  }

  // ---------------------------------------------------------------- _detect_line_ending

  /** `s.count(c)` for one character. */
  function CountChar(s: string, c: char): (n: nat)
    ensures n <= |s|
  {
    if s == [] then 0 else (if s[0] == c then 1 else 0) + CountChar(s[1..], c)
  }

  /**
   * `s.count('\r\n')`: occurrences of `\r\n` cannot overlap, so counting the
   * positions where one starts gives Python's non-overlapping count.
   */
  function CountPair(s: string): (n: nat)
  {
    if |s| < 2 then 0 else (if s[0] == '\r' && s[1] == '\n' then 1 else 0) + CountPair(s[1..])
  }

  /** `_detect_line_ending`. */
  function DetectLineEnding(content: string): LineEnding
  {
    var crlfCount := CountPair(content);
    var lfCount := CountChar(content, '\n') - crlfCount;
    var crCount := CountChar(content, '\r') - crlfCount;
    if crlfCount == 0 && lfCount == 0 && crCount == 0 then NoEnding
    else
      var total := crlfCount + lfCount + crCount;
      if crlfCount == total then CRLF
      else if lfCount == total then LF
      else if crCount == total then CR
      else Mixed
  }

  /** The number of lines with ending `e`. */
  function NumEnding(lines: seq<string>, e: LineEnding): (n: nat)
    ensures n <= |lines|
  {
    if lines == [] then 0 else (if Ending(lines[0]) == e then 1 else 0) + NumEnding(lines[1..], e)
  }

  predicate HasEnding(lines: seq<string>, e: LineEnding)
  {
    exists k :: 0 <= k < |lines| && Ending(lines[k]) == e
  }

  lemma {:induction false} NumEndingPositive(lines: seq<string>, e: LineEnding)
    ensures NumEnding(lines, e) > 0 <==> HasEnding(lines, e)
  {
    if lines != [] {
      NumEndingPositive(lines[1..], e);
      if HasEnding(lines[1..], e) {
        var k :| 0 <= k < |lines| - 1 && Ending(lines[1..][k]) == e;
        assert Ending(lines[k + 1]) == e;
      }
      if HasEnding(lines, e) && Ending(lines[0]) != e {
        var k :| 0 <= k < |lines| && Ending(lines[k]) == e;
        assert Ending(lines[1..][k - 1]) == e;
      }
    }
  }

  lemma {:induction false} CountCharAppend(a: string, b: string, c: char)
    ensures CountChar(a + b, c) == CountChar(a, c) + CountChar(b, c)
  {
    if a == [] {
      assert a + b == b;
    } else {
      assert (a + b)[1..] == a[1..] + b;
      CountCharAppend(a[1..], b, c);
    }
  }

  lemma {:induction false} CountPairAppend(a: string, b: string)
    requires a == [] || b == [] || a[|a| - 1] != '\r' || b[0] != '\n'
    ensures CountPair(a + b) == CountPair(a) + CountPair(b)
  {
    if a == [] {
      assert a + b == b;
    } else if |a| == 1 {
      if b != [] {
        assert (a + b)[1..] == b;
      } else {
        assert a + b == a;
      }
    } else {
      assert (a + b)[1..] == a[1..] + b;
      CountPairAppend(a[1..], b);
    }
  }

  lemma {:induction false} NoTerminatorCounts(s: string)
    requires NoTerminator(s)
    ensures CountChar(s, '\n') == 0 && CountChar(s, '\r') == 0 && CountPair(s) == 0
  {
    if s != [] {
      assert NoTerminator(s[1..]);
      NoTerminatorCounts(s[1..]);
    }
  }

  /** A shaped line holds exactly the terminator characters of its ending. */
  lemma LineCounts(line: string, last: bool)
    requires LineShaped(line, last)
    ensures var e := Ending(line);
      CountPair(line) == (if e == CRLF then 1 else 0)
      && CountChar(line, '\n') == (if e == CRLF || e == LF then 1 else 0)
      && CountChar(line, '\r') == (if e == CRLF || e == CR then 1 else 0)
  {
    var e := Ending(line);
    var body := line[..|line| - EndingLength(e)];
    var term := line[|line| - EndingLength(e)..];
    assert line == body + term;
    NoTerminatorCounts(body);
    CountCharAppend(body, term, '\n');
    CountCharAppend(body, term, '\r');
    CountPairAppend(body, term);
    assert term == (match e case CRLF => "\r\n" case LF => "\n" case CR => "\r" case _ => "");
  }

  /** Each terminator character of the content is the ending of one line. */
  lemma {:induction false} SplitCounts(s: string)
    ensures var lines := SplitLines(s);
      CountPair(s) == NumEnding(lines, CRLF)
      && CountChar(s, '\n') == NumEnding(lines, CRLF) + NumEnding(lines, LF)
      && CountChar(s, '\r') == NumEnding(lines, CRLF) + NumEnding(lines, CR)
    decreases |s|
  {
    if s != [] {
      var n := FirstLineLength(s);
      var line, rest := s[..n], s[n..];
      SplitCounts(rest);
      FirstLineShape(s);
      LineCounts(line, n == |s|);
      assert s == line + rest;
      CountCharAppend(line, rest, '\n');
      CountCharAppend(line, rest, '\r');
      CountPairAppend(line, rest);
      var lines := SplitLines(s);
      assert lines[0] == line && lines[1..] == SplitLines(rest);
    }
  }

  /**
   * `_detect_line_ending` in terms of the lines: `NONE` when no line has an
   * ending, `CRLF`, `LF` or `CR` when every ending is of that kind, and
   * `MIXED` when two kinds occur.
   */
  lemma DetectLineEndingOfLines(content: string)
    ensures var lines := SplitLines(content);
      var r := DetectLineEnding(content);
      var crlf, lf, cr := HasEnding(lines, CRLF), HasEnding(lines, LF), HasEnding(lines, CR);
      (r == NoEnding <==> !crlf && !lf && !cr)
      && (r == CRLF <==> crlf && !lf && !cr)
      && (r == LF <==> lf && !crlf && !cr)
      && (r == CR <==> cr && !crlf && !lf)
      && (r == Mixed <==> (crlf && lf) || (crlf && cr) || (lf && cr))
  {
    var lines := SplitLines(content);
    SplitCounts(content);
    NumEndingPositive(lines, CRLF);
    NumEndingPositive(lines, LF);
    NumEndingPositive(lines, CR);
  }

  // ---------------------------------------------------------------- _get_line_separator and write_file

  /** `_get_line_separator`. */
  function LineSeparator(e: LineEnding): (sep: string)
  {
    if e == CRLF then "\r\n" else if e == CR then "\r" else "\n"
  }

  /** The line join of `write_file`: the lines joined with the separator, which is appended unless the result already ends with it. */
  function WriteJoin(lines: seq<string>, sep: string): (content: string)
  {
    var joined := Join(lines, sep);
    if EndsWith(joined, sep) then joined else joined + sep
  }

  /** The written text always ends with the separator and starts with the joined lines. */
  lemma WriteJoinEnds(lines: seq<string>, sep: string)
    ensures var content := WriteJoin(lines, sep);
      EndsWith(content, sep) && |Join(lines, sep)| <= |content|
      && content[..|Join(lines, sep)|] == Join(lines, sep)
  {
    var joined := Join(lines, sep);
    if !EndsWith(joined, sep) {
      assert (joined + sep)[|joined + sep| - |sep|..] == sep;
      assert (joined + sep)[..|joined|] == joined;
    }
  }

  lemma {:induction false} JoinAvoids(parts: seq<string>, sep: string, c: char)
    requires c !in sep && forall k :: 0 <= k < |parts| ==> c !in parts[k]
    ensures c !in Join(parts, sep)
  {
    if |parts| > 1 {
      JoinAvoids(parts[1..], sep, c);
    }
  }

  lemma {:induction false} JoinLast(parts: seq<string>, sep: string)
    requires parts != [] && parts[|parts| - 1] != []
    ensures var j := Join(parts, sep); j != [] && j[|j| - 1] == Last(parts)[|Last(parts)| - 1]
  {
    if |parts| > 1 {
      JoinLast(parts[1..], sep);
      assert Last(parts[1..]) == Last(parts);
    }
  }

  function Last<T>(s: seq<T>): T
    requires s != []
  {
    s[|s| - 1]
  }

  /** Each line followed by the separator. */
  function Terminate(lines: seq<string>, sep: string): (r: seq<string>)
    ensures |r| == |lines| && forall k :: 0 <= k < |r| ==> r[k] == lines[k] + sep
  {
    seq(|lines|, k requires 0 <= k < |lines| => lines[k] + sep)
  }

  predicate IsSeparator(sep: string)
  {
    sep == "\n" || sep == "\r\n" || sep == "\r"
  }

  /** The lines of `line + sep + rest`, when `line` has no terminator, start with `line + sep`. */
  lemma SplitLineSep(line: string, sep: string, rest: string)
    requires NoTerminator(line) && IsSeparator(sep)
    requires sep == "\r" ==> rest == [] || rest[0] != '\n'
    ensures SplitLines(line + sep + rest) == [line + sep] + SplitLines(rest)
  {
    var s := line + sep + rest;
    assert s == line + (sep + rest);
    FirstLineAfter(line, sep + rest);
    assert FirstLineLength(sep + rest) == |sep|;
    assert s[..|line| + |sep|] == line + sep;
    assert s[|line| + |sep|..] == rest;
  }

  lemma {:induction false} SplitJoined(lines: seq<string>, sep: string)
    requires lines != [] && IsSeparator(sep)
    requires forall k :: 0 <= k < |lines| ==> NoTerminator(lines[k])
    ensures SplitLines(Join(lines, sep) + sep) == Terminate(lines, sep)
    decreases |lines|
  {
    if |lines| == 1 {
      SplitLineSep(lines[0], sep, []);
      assert lines[0] + sep + [] == Join(lines, sep) + sep;
    } else {
      SplitJoined(lines[1..], sep);
      SplitJoinedStep(lines, sep, Join(lines[1..], sep));
    }
  }

  lemma AppendAssoc(a: string, b: string, c: string)
    ensures (a + b) + c == a + (b + c)
  {
  }

  lemma NoTerminatorAvoids(s: string)
    requires NoTerminator(s)
    ensures '\n' !in s && '\r' !in s
  {
  }

  /** One more line in front: its lines are that line with the separator, then the lines of the rest. */
  lemma {:induction false} SplitJoinedStep(lines: seq<string>, sep: string, tail: string)
    requires |lines| > 1 && IsSeparator(sep) && tail == Join(lines[1..], sep)
    requires forall k :: 0 <= k < |lines| ==> NoTerminator(lines[k])
    requires SplitLines(tail + sep) == Terminate(lines[1..], sep)
    ensures SplitLines(Join(lines, sep) + sep) == Terminate(lines, sep)
  {
    var rest := tail + sep;
    if sep == "\r" {
      forall k | 0 <= k < |lines[1..]|
        ensures '\n' !in lines[1..][k]
      {
        NoTerminatorAvoids(lines[k + 1]);
      }
      JoinAvoids(lines[1..], sep, '\n');
      if tail == [] {
        assert rest == sep;
      } else {
        assert rest[0] == tail[0];
      }
    }
    SplitLineSep(lines[0], sep, rest);
    assert Join(lines, sep) == lines[0] + sep + tail;
    AppendAssoc(lines[0] + sep, tail, sep);
    TerminateCons(lines, sep);
  }

  lemma {:induction false} TerminateCons(lines: seq<string>, sep: string)
    requires lines != []
    ensures Terminate(lines, sep) == [lines[0] + sep] + Terminate(lines[1..], sep)
  {
  }

  /**
   * `write_file` followed by a line split gives each line back with the
   * separator, for lines without terminators whose last one is not empty; an
   * empty line list writes just the separator.
   */
  lemma WriteThenSplit(lines: seq<string>, e: LineEnding)
    requires forall k :: 0 <= k < |lines| ==> NoTerminator(lines[k])
    requires lines != [] ==> Last(lines) != []
    ensures lines == [] ==>
      WriteJoin(lines, LineSeparator(e)) == LineSeparator(e) && SplitLines(LineSeparator(e)) == [LineSeparator(e)]
    ensures lines != [] ==> SplitLines(WriteJoin(lines, LineSeparator(e))) == Terminate(lines, LineSeparator(e))
  {
    var sep := LineSeparator(e);
    var joined := Join(lines, sep);
    if lines == [] {
      assert !EndsWith(joined, sep);
      SplitLineSep([], sep, []);
      assert [] + sep + [] == sep;
    } else {
      JoinLast(lines, sep);
      assert !IsTerminator(Last(lines)[|Last(lines)| - 1]);
      assert joined[|joined| - 1] != sep[|sep| - 1];
      assert !EndsWith(joined, sep);
      SplitJoined(lines, sep);
    }
  }

  /** What `write_file` writes for a simple style is detected as that style. */
  lemma {:induction false} WriteThenDetect(lines: seq<string>, e: LineEnding)
    requires e == LF || e == CRLF || e == CR
    requires forall k :: 0 <= k < |lines| ==> NoTerminator(lines[k])
    requires lines != [] ==> Last(lines) != []
    ensures DetectLineEnding(WriteJoin(lines, LineSeparator(e))) == e
  {
    var sep := LineSeparator(e);
    var content := WriteJoin(lines, sep);
    WriteThenSplit(lines, e);
    var ls := SplitLines(content);
    forall k | 0 <= k < |ls|
      ensures Ending(ls[k]) == e
    {
      if lines == [] {
        assert ls[k] == sep;
      } else {
        assert ls[k] == lines[k] + sep;
        EndingTerminated(lines[k], e);
      }
    }
    DetectUniform(content, e);
  }

  /** A line without terminator, followed by a simple style's separator, ends in that style. */
  lemma {:induction false} EndingTerminated(line: string, e: LineEnding)
    requires e == LF || e == CRLF || e == CR
    requires NoTerminator(line)
    ensures Ending(line + LineSeparator(e)) == e
  {
    NoTerminatorAvoids(line);
    var s := line + LineSeparator(e);
    if |line| > 0 {
      assert s[|line| - 1] == line[|line| - 1];
    }
  }

  /** Text whose lines, at least one, all end in the same simple style is detected as that style. */
  lemma DetectUniform(content: string, e: LineEnding)
    requires e == LF || e == CRLF || e == CR
    requires SplitLines(content) != []
    requires forall k :: 0 <= k < |SplitLines(content)| ==> Ending(SplitLines(content)[k]) == e
    ensures DetectLineEnding(content) == e
  {
    var ls := SplitLines(content);
    assert Ending(ls[0]) == e;
    DetectLineEndingOfLines(content);
  }

  // ---------------------------------------------------------------- BOM

  /**
   * The encoding `read_file` decodes with and whether it saw a byte-order
   * mark: a leading EF BB BF, FF FE or FE FF overrides `chosen` (the requested
   * or detected encoding) with UTF-8-with-signature, UTF-16-LE or UTF-16-BE.
   */
  function ReadEncoding(raw: seq<Byte>, chosen: string): (r: (string, bool))
    ensures r.1 <==> StartsWith(raw, [0xEF, 0xBB, 0xBF]) || StartsWith(raw, [0xFF, 0xFE]) || StartsWith(raw, [0xFE, 0xFF])
    ensures StartsWith(raw, [0xEF, 0xBB, 0xBF]) ==> r.0 == "utf-8-sig"
    ensures StartsWith(raw, [0xFF, 0xFE]) ==> r.0 == "utf-16-le"
    ensures StartsWith(raw, [0xFE, 0xFF]) ==> r.0 == "utf-16-be"
    ensures !r.1 ==> r.0 == chosen
  {
    BomFirstByte(raw);
    if StartsWith(raw, [0xEF, 0xBB, 0xBF]) then ("utf-8-sig", true)
    else if StartsWith(raw, [0xFF, 0xFE]) then ("utf-16-le", true)
    else if StartsWith(raw, [0xFE, 0xFF]) then ("utf-16-be", true)
    else (chosen, false)
  }

  lemma BomFirstByte(raw: seq<Byte>)
    ensures StartsWith(raw, [0xEF, 0xBB, 0xBF]) ==> raw[0] == 0xEF
    ensures StartsWith(raw, [0xFF, 0xFE]) ==> raw[0] == 0xFF
    ensures StartsWith(raw, [0xFE, 0xFF]) ==> raw[0] == 0xFE
  {
  }

  // ---------------------------------------------------------------- _is_binary_file

  /** `BINARY_SIGNATURES`: NUL, PNG, JPEG, GIF, ZIP, GZIP, PDF, ELF and Windows executables. */
  const Signatures: seq<seq<Byte>> := [
    [0x00],
    [0x89, 0x50, 0x4E, 0x47],
    [0xFF, 0xD8, 0xFF],
    [0x47, 0x49, 0x46, 0x38],
    [0x50, 0x4B, 0x03, 0x04],
    [0x1F, 0x8B],
    [0x25, 0x50, 0x44, 0x46],
    [0x7F, 0x45, 0x4C, 0x46],
    [0x4D, 0x5A]
  ]

  /** `binary_check_size`: how many leading bytes the check reads. */
  const BinaryCheckSize := 8192

  /** A byte the ratio test counts as non-text: below 9, or from 14 to 31. */
  predicate IsControl(b: Byte)
  {
    b < 9 || (b > 13 && b < 32)
  }

  function NonText(chunk: seq<Byte>): (n: nat)
    ensures n <= |chunk|
  {
    if chunk == [] then 0 else NonText(chunk[..|chunk| - 1]) + (if IsControl(chunk[|chunk| - 1]) then 1 else 0)
  }

  /**
   * The verdict on a chunk: it starts with a signature, holds a NUL byte, or
   * more than three tenths of its bytes are non-text.
   */
  predicate BinaryChunk(chunk: seq<Byte>)
  {
    (exists k :: 0 <= k < |Signatures| && StartsWith(chunk, Signatures[k]))
    || 0 in chunk
    || (|chunk| > 0 && 10 * NonText(chunk) > 3 * |chunk|)
  }

  /** The chunk test of `_is_binary_file`: signatures, then NUL bytes, then the ratio of non-text bytes. */
  method IsBinaryChunk(chunk: seq<Byte>) returns (binary: bool)
    ensures binary == BinaryChunk(chunk)
  {
    for k := 0 to |Signatures|
      invariant forall j :: 0 <= j < k ==> !StartsWith(chunk, Signatures[j])
    {
      if StartsWith(chunk, Signatures[k]) {
        return true;
      }
    }
    if 0 in chunk {
      return true;
    }
    var nonText := 0;
    for i := 0 to |chunk|
      invariant nonText == NonText(chunk[..i])
    {
      assert chunk[..i + 1][..i] == chunk[..i];
      if IsControl(chunk[i]) {
        nonText := nonText + 1;
      }
    }
    assert chunk[..|chunk|] == chunk;
    return |chunk| > 0 && 10 * nonText > 3 * |chunk|;
  }

  /** `non_text / len(chunk) > 0.3`, over exact fractions, is the integer test the model uses. */
  lemma RatioTest(nonText: nat, len: nat)
    requires len > 0
    ensures (nonText as real) / (len as real) > 0.3 <==> 10 * nonText > 3 * len
  {
    DivAbove(nonText as real, len as real, 0.3);
  }

  lemma DivAbove(n: real, l: real, c: real)
    requires l > 0.0
    ensures n / l > c <==> n > c * l
  {
    var q := n / l;
    assert q * l == n;
    if q > c {
      assert q * l > c * l;
    } else {
      assert q * l <= c * l;
    }
  }

  /** `_is_binary_file` on a readable file with these bytes: the verdict on its first `binary_check_size` bytes. */
  predicate FileLooksBinary(data: seq<Byte>)
  {
    BinaryChunk(SliceTo(data, BinaryCheckSize))
  }

  /** Bytes past the first `binary_check_size` never change the verdict. */
  lemma OnlyHeadMatters(data: seq<Byte>, more: seq<Byte>)
    requires |data| >= BinaryCheckSize
    ensures FileLooksBinary(data + more) == FileLooksBinary(data)
  {
    assert SliceTo(data + more, BinaryCheckSize) == SliceTo(data, BinaryCheckSize);
  }

  /** A chunk of text bytes (tab to carriage return, or 32 and above) is binary only by a signature. */
  lemma {:induction false} TextBytesNotControl(chunk: seq<Byte>)
    requires forall i :: 0 <= i < |chunk| ==> !IsControl(chunk[i])
    ensures NonText(chunk) == 0 && 0 !in chunk
  {
    if chunk != [] {
      TextBytesNotControl(chunk[..|chunk| - 1]);
      assert forall x :: x in chunk ==> x in chunk[..|chunk| - 1] || x == chunk[|chunk| - 1];
    }
  }

  lemma TextChunkBinaryOnlyBySignature(chunk: seq<Byte>)
    requires forall i :: 0 <= i < |chunk| ==> !IsControl(chunk[i])
    ensures BinaryChunk(chunk) <==> exists k :: 0 <= k < |Signatures| && StartsWith(chunk, Signatures[k])
  {
    TextBytesNotControl(chunk);
  }
}
