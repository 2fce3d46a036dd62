/**
 * The text-diff engine: line normalisation, blank-line filtering, the
 * tokenizer, the `DiffLine` builders, intraline spans, hunks, statistics and
 * the hunk builder of `compare`. difflib's matcher is a parameter; the
 * anchored algorithms come from `TextDiffAnchors`.
 */
module TextDiff {
  import opened Wrappers
  import opened TextUtil
  import opened Opcodes
  import opened Models
  import opened TextDiffAnchors

  datatype DiffAlgorithm = Myers | Patience | Histogram | Minimal
  datatype WhitespaceMode = Exact | IgnoreTrailing | IgnoreLeading | IgnoreAll | Normalize

  /** `TextCompareOptions`, without the junk filter (folded into the matchers). */
  datatype TextCompareOptions = TextCompareOptions(
    algorithm: DiffAlgorithm,
    ignoreCase: bool,
    whitespaceMode: WhitespaceMode,
    ignoreBlankLines: bool,
    ignoreLineEndings: bool,
    contextLines: int,
    computeIntraline: bool,
    intralineCharThreshold: int)

  const DefaultOptions := TextCompareOptions(Myers, false, Exact, false, true, 3, true, 200)

  // ---------------------------------------------------------------- str.split()

  predicate NoSpace(s: string)
  {
    forall i :: 0 <= i < |s| ==> !IsSpace(s[i])
  }

  /** The length of the run of non-whitespace characters that starts `s`. */
  function WordEnd(s: string): (k: nat)
    ensures k <= |s|
    ensures forall i :: 0 <= i < k ==> !IsSpace(s[i])
    ensures k == |s| || IsSpace(s[k])
    ensures s != [] && !IsSpace(s[0]) ==> k >= 1
  {
    if s == [] || IsSpace(s[0]) then 0 else 1 + WordEnd(s[1..])
  }

  /** `str.split()` with no argument: the maximal runs of non-whitespace characters, in order. */
  function Words(s: string): (r: seq<string>)
    ensures forall k :: 0 <= k < |r| ==> r[k] != [] && NoSpace(r[k])
    decreases |s|
  {
    if s == [] then []
    else if IsSpace(s[0]) then Words(s[1..])
    else
      var k := WordEnd(s);
      assert NoSpace(s[..k]);
      [s[..k]] + Words(s[k..])
  }

  /** `s` without its whitespace characters. */
  function RemoveSpace(s: string): (r: string)
    ensures NoSpace(r)
  {
    if s == [] then []
    else (if IsSpace(s[0]) then [] else [s[0]]) + RemoveSpace(s[1..])
  }

  lemma {:induction false} RemoveSpaceWord(s: string, k: nat)
    requires k <= |s| && forall i :: 0 <= i < k ==> !IsSpace(s[i])
    ensures RemoveSpace(s) == s[..k] + RemoveSpace(s[k..])
  {
    if k > 0 {
      RemoveSpaceWord(s[1..], k - 1);
      assert s[1..][..k - 1] == s[1..k] && s[1..][k - 1..] == s[k..];
      assert s[..k] == [s[0]] + s[1..k];
    }
  }

  /** `''.join(s.split())` keeps every non-whitespace character, in order, and nothing else. */
  lemma {:induction false} WordsConcat(s: string)
    ensures Concat(Words(s)) == RemoveSpace(s)
    decreases |s|
  {
    if s == [] {
    } else if IsSpace(s[0]) {
      WordsConcat(s[1..]);
    } else {
      var k := WordEnd(s);
      WordsConcat(s[k..]);
      RemoveSpaceWord(s, k);
      var ws := [s[..k]] + Words(s[k..]);
      assert ws[0] == s[..k] && ws[1..] == Words(s[k..]);
    }
  }

  /** Every whitespace character is a single inner space between two non-whitespace characters. */
  predicate SingleSpaced(r: string)
  {
    forall i :: 0 <= i < |r| && IsSpace(r[i]) ==>
      r[i] == ' ' && 0 < i < |r| - 1 && !IsSpace(r[i - 1]) && !IsSpace(r[i + 1])
  }

  /** Joining space-free words with single spaces gives a single-spaced string. */
  lemma {:induction false} JoinWordsSingleSpaced(ws: seq<string>)
    requires forall k :: 0 <= k < |ws| ==> ws[k] != [] && NoSpace(ws[k])
    ensures SingleSpaced(Join(ws, " "))
    ensures ws != [] ==> (Join(ws, " ") != [] && Join(ws, " ")[0] == ws[0][0]
      && Join(ws, " ")[|Join(ws, " ")| - 1] == ws[|ws| - 1][|ws[|ws| - 1]| - 1])
  {
    if |ws| > 1 {
      var w, rest := ws[0], Join(ws[1..], " ");
      JoinWordsSingleSpaced(ws[1..]);
      var r := w + " " + rest;
      assert r == Join(ws, " ");
      assert forall i :: 0 <= i < |w| ==> r[i] == w[i];
      forall i | 0 <= i < |r| && IsSpace(r[i])
        ensures r[i] == ' ' && 0 < i < |r| - 1 && !IsSpace(r[i - 1]) && !IsSpace(r[i + 1])
      {
        if i > |w| {
          assert r[i] == rest[i - |w| - 1];
          if i - 1 > |w| {
            assert r[i - 1] == rest[i - |w| - 2];
          }
          assert r[i + 1] == rest[i - |w|];
        }
      }
    }
  }

  /** What follows a space of a single-spaced string is single-spaced. */
  lemma SingleSpacedTail(r: string, k: int)
    requires SingleSpaced(r) && 0 <= k < |r| && IsSpace(r[k])
    ensures SingleSpaced(r[k + 1..])
  {
    var tail := r[k + 1..];
    assert k + 1 < |r| ==> !IsSpace(r[k + 1]);
    forall i | 0 <= i < |tail| && IsSpace(tail[i])
      ensures tail[i] == ' ' && 0 < i < |tail| - 1 && !IsSpace(tail[i - 1]) && !IsSpace(tail[i + 1])
    {
      assert tail[i] == r[k + 1 + i];
    }
  }

  /** A single-spaced string is already `' '.join(s.split())`. */
  lemma {:induction false} SingleSpacedFixed(r: string)
    requires SingleSpaced(r)
    ensures Join(Words(r), " ") == r
    decreases |r|
  {
    if r != [] {
      assert !IsSpace(r[0]);
      var k := WordEnd(r);
      if k < |r| {
        var tail := r[k + 1..];
        assert r[k] == ' ' && 0 < k < |r| - 1 && !IsSpace(r[k + 1]);
        SingleSpacedTail(r, k);
        SingleSpacedFixed(tail);
        SingleSpacedStep(r, k, tail);
      } else {
        assert r[..k] == r && r[k..] == [];
      }
    }
  }

  /** A word, one space and a fixed tail that starts with a word make a fixed string. */
  lemma SingleSpacedStep(r: string, k: nat, tail: string)
    requires 0 < k < |r| - 1 && k == WordEnd(r) && r[k] == ' ' && tail == r[k + 1..] && !IsSpace(tail[0])
    requires Join(Words(tail), " ") == tail
    ensures Join(Words(r), " ") == r
  {
    WordsAfterSpace(r, k, tail);
    JoinCons(r[..k], Words(tail), " ");
    assert r == r[..k] + " " + tail;
  }

  lemma WordsAfterSpace(r: string, k: nat, tail: string)
    requires 0 < k < |r| - 1 && k == WordEnd(r) && r[k] == ' ' && tail == r[k + 1..] && !IsSpace(tail[0])
    ensures Words(tail) != [] && Words(r) == [r[..k]] + Words(tail)
  {
    assert r[k..][1..] == tail;
    assert Words(r[k..]) == Words(tail);
  }

  lemma JoinCons(w: string, ws: seq<string>, sep: string)
    requires ws != []
    ensures Join([w] + ws, sep) == w + sep + Join(ws, sep)
  {
    assert ([w] + ws)[1..] == ws;
  }

  // ---------------------------------------------------------------- normalize_line

  /** The whitespace step of `normalize_line`. */
  function NormalizeWhitespace(mode: WhitespaceMode, s: string): string
  {
    match mode
    case Exact => s
    case IgnoreTrailing => RStrip(s)
    case IgnoreLeading => LStrip(s)
    case IgnoreAll => Concat(Words(s))
    case Normalize => Join(Words(s), " ")
  }

  /** What a string looks like after the whitespace step of each mode. */
  predicate WhitespaceNormal(mode: WhitespaceMode, s: string)
  {
    match mode
    case Exact => true
    case IgnoreTrailing => s == [] || !IsSpace(s[|s| - 1])
    case IgnoreLeading => s == [] || !IsSpace(s[0])
    case IgnoreAll => NoSpace(s)
    case Normalize => SingleSpaced(s)
  }

  /** `TextCompareOptions.normalize_line`. */
  function NormalizeLine(opts: TextCompareOptions, line: string): string
  {
    var a := if opts.ignoreLineEndings then RStripChars(line, LineEndChars) else line;
    var b := NormalizeWhitespace(opts.whitespaceMode, a);
    if opts.ignoreCase then Lower(b) else b
  }

  /** Each whitespace step puts its result in that mode's normal form, and leaves a string in normal form alone. */
  lemma WhitespaceStep(mode: WhitespaceMode, s: string)
    ensures WhitespaceNormal(mode, NormalizeWhitespace(mode, s))
    ensures WhitespaceNormal(mode, s) ==> NormalizeWhitespace(mode, s) == s
  {
    match mode
    case Exact =>
    case IgnoreTrailing =>
      RStripProps(s);
    case IgnoreLeading =>
      LStripProps(s);
    case IgnoreAll =>
      WordsConcat(s);
      if NoSpace(s) {
        NoSpaceRemoveSpace(s);
      }
    case Normalize =>
      JoinWordsSingleSpaced(Words(s));
      if SingleSpaced(s) {
        SingleSpacedFixed(s);
      }
  }

  lemma {:induction false} NoSpaceRemoveSpace(s: string)
    requires NoSpace(s)
    ensures RemoveSpace(s) == s
  {
    if s != [] {
      NoSpaceRemoveSpace(s[1..]);
    }
  }

  lemma LowerKeepsSpace(s: string)
    ensures forall i :: 0 <= i < |s| ==> (IsSpace(Lower(s)[i]) <==> IsSpace(s[i]))
    ensures forall i :: 0 <= i < |s| ==> (Lower(s)[i] == ' ' <==> s[i] == ' ')
    ensures forall i :: 0 <= i < |s| ==> (Lower(s)[i] in LineEndChars <==> s[i] in LineEndChars)
  {
  }

  /** Lowercasing keeps every mode's normal form. */
  lemma LowerKeepsNormal(mode: WhitespaceMode, s: string)
    requires WhitespaceNormal(mode, s)
    ensures WhitespaceNormal(mode, Lower(s))
  {
    LowerKeepsSpace(s);
  }

  /** The character a whitespace step leaves at the end of a non-empty result. */
  lemma WhitespaceStepLast(mode: WhitespaceMode, s: string)
    requires s == [] || s[|s| - 1] !in LineEndChars
    ensures var r := NormalizeWhitespace(mode, s); r == [] || r[|r| - 1] !in LineEndChars
  {
    WhitespaceStep(mode, s);
    var r := NormalizeWhitespace(mode, s);
    if mode == IgnoreLeading {
      LStripProps(s);
    } else if mode == IgnoreAll && r != [] {
      assert !IsSpace(r[|r| - 1]);
    }
  }

  /**
   * `normalize_line`: with `ignore_line_endings` no trailing `\r` or `\n`
   * survives; each whitespace mode leaves its normal form (no trailing or no
   * leading whitespace, no whitespace at all, single inner spaces); with
   * `ignore_case` no ASCII capital survives; with no option set the line is
   * unchanged.
   */
  lemma NormalizeLineProps(opts: TextCompareOptions, line: string)
    ensures var r := NormalizeLine(opts, line);
      (opts.ignoreLineEndings ==> r == [] || r[|r| - 1] !in LineEndChars)
      && WhitespaceNormal(opts.whitespaceMode, r)
      && (opts.ignoreCase ==> forall i :: 0 <= i < |r| ==> !('A' <= r[i] <= 'Z'))
      && (!opts.ignoreLineEndings && opts.whitespaceMode == Exact && !opts.ignoreCase ==> r == line)
  {
    var a := if opts.ignoreLineEndings then RStripChars(line, LineEndChars) else line;
    var b := NormalizeWhitespace(opts.whitespaceMode, a);
    WhitespaceStep(opts.whitespaceMode, a);
    if opts.ignoreLineEndings {
      WhitespaceStepLast(opts.whitespaceMode, a);
    }
    if opts.ignoreCase {
      LowerKeepsNormal(opts.whitespaceMode, b);
      LowerKeepsSpace(b);
    }
  }

  /** Normalising a normalised line changes nothing. */
  lemma NormalizeLineIdempotent(opts: TextCompareOptions, line: string)
    ensures NormalizeLine(opts, NormalizeLine(opts, line)) == NormalizeLine(opts, line)
  {
    var r := NormalizeLine(opts, line);
    NormalizeLineProps(opts, line);
    var a := if opts.ignoreLineEndings then RStripChars(r, LineEndChars) else r;
    assert a == r;
    WhitespaceStep(opts.whitespaceMode, r);
    if opts.ignoreCase {
      assert Lower(r) == r;
    }
  }

  // ---------------------------------------------------------------- _filter_blank_lines

  lemma {:induction false} RStripAllSpace(s: string)
    requires AllSpace(s)
    ensures RStrip(s) == []
  {
    if s != [] {
      RStripAllSpace(s[..|s| - 1]);
    }
  }

  lemma {:induction false} StripEmptyAllSpace(s: string)
    requires Strip(s) == []
    ensures AllSpace(s)
  {
    RStripProps(s);
    LStripProps(RStrip(s));
    assert RStrip(s)[..|RStrip(s)|] == RStrip(s);
    assert |RStrip(s)| == 0;
    assert s[0..] == s;
  }

  /** A line is blank for `_filter_blank_lines` (`line.strip()` is empty) iff it is all whitespace. */
  lemma BlankIff(s: string)
    ensures Strip(s) == [] <==> AllSpace(s)
  {
    if AllSpace(s) {
      RStripAllSpace(s);
    }
    if Strip(s) == [] {
      StripEmptyAllSpace(s);
    }
  }

  /** The original positions of the lines `_filter_blank_lines` keeps among the first `n`. */
  function KeptIndices(lines: seq<string>, n: int): (r: seq<int>)
    requires 0 <= n <= |lines|
    ensures forall k :: 0 <= k < |r| ==> 0 <= r[k] < n && Strip(lines[r[k]]) != []
    ensures forall a, b :: 0 <= a < b < |r| ==> r[a] < r[b]
  {
    if n == 0 then []
    else KeptIndices(lines, n - 1) + (if Strip(lines[n - 1]) != [] then [n - 1] else [])
  }

  /** Every line with non-whitespace content is kept. */
  lemma {:induction false} KeptIndicesComplete(lines: seq<string>, n: int, i: int)
    requires 0 <= i < n <= |lines| && !AllSpace(lines[i])
    ensures i in KeptIndices(lines, n)
  {
    BlankIff(lines[i]);
    var prev := KeptIndices(lines, n - 1);
    var last: seq<int> := if Strip(lines[n - 1]) != [] then [n - 1] else [];
    assert KeptIndices(lines, n) == prev + last;
    if i < n - 1 {
      KeptIndicesComplete(lines, n - 1, i);
      assert i in prev;
    } else {
      assert last == [i];
    }
  }

  /** The lines `_filter_blank_lines` keeps, in order. */
  function NonBlankLines(lines: seq<string>): (r: seq<string>)
    ensures forall k :: 0 <= k < |r| ==> Strip(r[k]) != []
  {
    var kept := KeptIndices(lines, |lines|);
    seq(|kept|, k requires 0 <= k < |kept| => lines[kept[k]])
  }

  /**
   * `_filter_blank_lines`: the lines with non-whitespace content, in order,
   * and the map from each kept line's new position to its original one.
   */
  method FilterBlankLines(lines: seq<string>) returns (filtered: seq<string>, mapping: map<int, int>)
    ensures filtered == NonBlankLines(lines)
    ensures var kept := KeptIndices(lines, |lines|);
      |filtered| == |kept| && (forall k :: 0 <= k < |kept| ==> filtered[k] == lines[kept[k]])
      && (forall k :: k in mapping <==> 0 <= k < |kept|)
      && (forall k :: 0 <= k < |kept| ==> mapping[k] == kept[k])
  {
    filtered := [];
    mapping := map[];
    var i := 0;
    while i < |lines|
      invariant 0 <= i <= |lines|
      invariant Filtered(lines, i, filtered, mapping)
    {
      var line := lines[i];
      FilteredStep(lines, i, filtered, mapping);
      if Strip(line) != [] {
        mapping := mapping[|filtered| := i];
        filtered := filtered + [line];
      }
      i := i + 1;
    }
    assert filtered == NonBlankLines(lines);
  }

  /** The loop state of `_filter_blank_lines` after the first `i` lines. */
  ghost predicate Filtered(lines: seq<string>, i: int, filtered: seq<string>, mapping: map<int, int>)
    requires 0 <= i <= |lines|
  {
    var kept := KeptIndices(lines, i);
    |filtered| == |kept| && (forall k :: 0 <= k < |kept| ==> filtered[k] == lines[kept[k]])
    && (forall k :: k in mapping <==> 0 <= k < |kept|)
    && (forall k :: 0 <= k < |kept| ==> mapping[k] == kept[k])
  }

  lemma FilteredStep(lines: seq<string>, i: int, filtered: seq<string>, mapping: map<int, int>)
    requires 0 <= i < |lines| && Filtered(lines, i, filtered, mapping)
    ensures Strip(lines[i]) != [] ==> Filtered(lines, i + 1, filtered + [lines[i]], mapping[|filtered| := i])
    ensures Strip(lines[i]) == [] ==> Filtered(lines, i + 1, filtered, mapping)
  {
    var kept := KeptIndices(lines, i);
    assert KeptIndices(lines, i + 1) == kept + (if Strip(lines[i]) != [] then [i] else []);
  }

  // ---------------------------------------------------------------- _tokenize

  /** The length of the run at the start of `s` whose characters are all whitespace or all not. */
  function RunEnd(s: string, space: bool): (k: nat)
    ensures k <= |s|
    ensures forall i :: 0 <= i < k ==> IsSpace(s[i]) == space
    ensures k == |s| || IsSpace(s[k]) != space
    ensures s != [] && IsSpace(s[0]) == space ==> k >= 1
  {
    if s == [] || IsSpace(s[0]) != space then 0 else 1 + RunEnd(s[1..], space)
  }

  /** `_tokenize`: the matches of `(\s+|\S+)` from left to right. */
  function Tokenize(s: string): (r: seq<string>)
    decreases |s|
  {
    if s == [] then []
    else
      var k := RunEnd(s, IsSpace(s[0]));
      [s[..k]] + Tokenize(s[k..])
  }

  /** All characters of `t` are whitespace, or none is. */
  predicate Uniform(t: string)
  {
    forall i :: 0 <= i < |t| ==> IsSpace(t[i]) == IsSpace(t[0])
  }

  /** The tokens of `_tokenize` spell the text. */
  lemma {:induction false} TokenizeConcat(s: string)
    ensures Concat(Tokenize(s)) == s
    decreases |s|
  {
    if s != [] {
      var k := RunEnd(s, IsSpace(s[0]));
      TokenizeConcat(s[k..]);
      var r := [s[..k]] + Tokenize(s[k..]);
      assert r[1..] == Tokenize(s[k..]);
      assert s == s[..k] + s[k..];
    }
  }

  /**
   * The tokens are non-empty runs of only whitespace or only non-whitespace,
   * and neighbours are of different kinds, so every run is maximal.
   */
  lemma {:induction false} TokenizeRuns(s: string)
    ensures var r := Tokenize(s);
      (forall k :: 0 <= k < |r| ==> r[k] != [] && Uniform(r[k]))
      && (forall k :: 0 <= k < |r| - 1 ==> IsSpace(r[k][0]) != IsSpace(r[k + 1][0]))
      && (s != [] ==> r != [] && r[0][0] == s[0])
    decreases |s|
  {
    if s != [] {
      var k := RunEnd(s, IsSpace(s[0]));
      var rest := Tokenize(s[k..]);
      TokenizeRuns(s[k..]);
      var r := [s[..k]] + rest;
      assert forall j :: 0 <= j < |rest| ==> r[j + 1] == rest[j];
      assert Uniform(s[..k]);
      if rest != [] {
        assert rest[0][0] == s[k];
      }
    }
  }

  // ---------------------------------------------------------------- what diff lines say about each side

  /** The (line number, text) of every diff line that carries a left line number, in order. */
  function LeftSide(ls: seq<DiffLine>): (r: seq<(int, string)>)
    ensures |r| <= |ls|
  {
    if ls == [] then []
    else
      var last := ls[|ls| - 1];
      LeftSide(ls[..|ls| - 1]) + (if last.leftLineNum.Some? then [(last.leftLineNum.value, last.content)] else [])
  }

  /** The right line numbers the diff lines carry, in order. */
  function RightNums(ls: seq<DiffLine>): (r: seq<int>)
    ensures |r| <= |ls|
  {
    if ls == [] then []
    else
      var last := ls[|ls| - 1];
      RightNums(ls[..|ls| - 1]) + (if last.rightLineNum.Some? then [last.rightLineNum.value] else [])
  }

  lemma {:induction false} SidesAppend(a: seq<DiffLine>, b: seq<DiffLine>)
    ensures LeftSide(a + b) == LeftSide(a) + LeftSide(b)
    ensures RightNums(a + b) == RightNums(a) + RightNums(b)
    decreases |b|
  {
    if b != [] {
      var b' := b[..|b| - 1];
      SidesAppend(a, b');
      assert (a + b)[..|a + b| - 1] == a + b';
    } else {
      assert a + b == a;
    }
  }

  /** Lines `i..j` of `lines` with their 1-based numbers. */
  function Numbered(lines: seq<string>, i: int, j: int): (r: seq<(int, string)>)
    requires 0 <= i <= j <= |lines|
    ensures |r| == j - i
    ensures forall k :: 0 <= k < j - i ==> r[k] == (i + k + 1, lines[i + k])
  {
    seq(j - i, k requires 0 <= k < j - i => (i + k + 1, lines[i + k]))
  }

  /** The numbers `i + 1 .. j`. */
  function Counting(i: int, j: int): (r: seq<int>)
    requires i <= j
    ensures |r| == j - i && forall k :: 0 <= k < j - i ==> r[k] == i + k + 1
  {
    seq(j - i, k requires 0 <= k < j - i => i + k + 1)
  }

  lemma NumberedSnoc(lines: seq<string>, i: int, j: int)
    requires 0 <= i <= j < |lines|
    ensures Numbered(lines, i, j) + [(j + 1, lines[j])] == Numbered(lines, i, j + 1)
  {
  }

  lemma CountingSnoc(i: int, j: int)
    requires i <= j
    ensures Counting(i, j) + [j + 1] == Counting(i, j + 1)
  {
  }

  /** Diff lines numbered `start + 1, start + 2, ...` on the left, with the texts of `lines`, show those lines. */
  lemma {:induction false} LeftSideNumbered(r: seq<DiffLine>, lines: seq<string>, start: int)
    requires 0 <= start && start + |r| <= |lines|
    requires forall k :: 0 <= k < |r| ==> r[k].leftLineNum == Some(start + k + 1) && r[k].content == lines[start + k]
    ensures LeftSide(r) == Numbered(lines, start, start + |r|)
  {
    if r != [] {
      LeftSideNumbered(r[..|r| - 1], lines, start);
    }
  }

  lemma {:induction false} RightNumsCounting(r: seq<DiffLine>, start: int)
    requires forall k :: 0 <= k < |r| ==> r[k].rightLineNum == Some(start + k + 1)
    ensures RightNums(r) == Counting(start, start + |r|)
  {
    if r != [] {
      RightNumsCounting(r[..|r| - 1], start);
    }
  }

  lemma {:induction false} LeftSideNone(r: seq<DiffLine>)
    requires forall k :: 0 <= k < |r| ==> r[k].leftLineNum == None
    ensures LeftSide(r) == []
  {
    if r != [] {
      LeftSideNone(r[..|r| - 1]);
    }
  }

  lemma {:induction false} RightNumsNone(r: seq<DiffLine>)
    requires forall k :: 0 <= k < |r| ==> r[k].rightLineNum == None
    ensures RightNums(r) == []
  {
    if r != [] {
      RightNumsNone(r[..|r| - 1]);
    }
  }

  // ---------------------------------------------------------------- the _create_* builders

  /** `_create_equal_lines`: lines `start..end` of the left side, numbered on both sides. */
  function CreateEqualLines(lines: seq<string>, start: int, end: int, rightStart: int): (r: seq<DiffLine>)
    requires 0 <= start <= end <= |lines|
    ensures |r| == end - start
    ensures forall k :: 0 <= k < |r| ==> r[k] == DiffLine(DiffLineType.Unchanged, lines[start + k],
      Some(start + k + 1), Some(rightStart + k + 1), None)
  {
    seq(end - start, k requires 0 <= k < end - start =>
      DiffLine(DiffLineType.Unchanged, lines[start + k], Some(start + k + 1), Some(rightStart + k + 1), None))
  }

  /** `_create_removed_lines`: lines `start..end`, numbered on the left only. */
  function CreateRemovedLines(lines: seq<string>, start: int, end: int): (r: seq<DiffLine>)
    requires 0 <= start <= end <= |lines|
    ensures |r| == end - start
    ensures forall k :: 0 <= k < |r| ==> r[k] == DiffLine(DiffLineType.Removed, lines[start + k],
      Some(start + k + 1), None, None)
  {
    seq(end - start, k requires 0 <= k < end - start =>
      DiffLine(DiffLineType.Removed, lines[start + k], Some(start + k + 1), None, None))
  }

  /** `_create_added_lines`: lines `start..end` of the right side, numbered on the right only (`left_pos` is unused). */
  function CreateAddedLines(lines: seq<string>, start: int, end: int, leftPos: int): (r: seq<DiffLine>)
    requires 0 <= start <= end <= |lines|
    ensures |r| == end - start
    ensures forall k :: 0 <= k < |r| ==> r[k] == DiffLine(DiffLineType.Added, lines[start + k],
      None, Some(start + k + 1), None)
  {
    seq(end - start, k requires 0 <= k < end - start =>
      DiffLine(DiffLineType.Added, lines[start + k], None, Some(start + k + 1), None))
  }

  /**
   * What the three builders show of each side: equal lines show left lines
   * `start..end` and right numbers from `right_start + 1`; removed lines show
   * left lines `start..end` and nothing on the right; added lines show right
   * numbers `start + 1 .. end` and nothing on the left.
   */
  lemma BuilderSides(left: seq<string>, right: seq<string>, i1: int, i2: int, j1: int, j2: int)
    requires 0 <= i1 <= i2 <= |left| && 0 <= j1 <= j2 <= |right|
    ensures LeftSide(CreateEqualLines(left, i1, i2, j1)) == Numbered(left, i1, i2)
    ensures RightNums(CreateEqualLines(left, i1, i2, j1)) == Counting(j1, j1 + (i2 - i1))
    ensures LeftSide(CreateRemovedLines(left, i1, i2)) == Numbered(left, i1, i2)
    ensures RightNums(CreateRemovedLines(left, i1, i2)) == []
    ensures LeftSide(CreateAddedLines(right, j1, j2, i1)) == []
    ensures RightNums(CreateAddedLines(right, j1, j2, i1)) == Counting(j1, j2)
  {
    LeftSideNumbered(CreateEqualLines(left, i1, i2, j1), left, i1);
    RightNumsCounting(CreateEqualLines(left, i1, i2, j1), j1);
    LeftSideNumbered(CreateRemovedLines(left, i1, i2), left, i1);
    RightNumsNone(CreateRemovedLines(left, i1, i2));
    LeftSideNone(CreateAddedLines(right, j1, j2, i1));
    RightNumsCounting(CreateAddedLines(right, j1, j2, i1), j1);
  }

  // ---------------------------------------------------------------- compute_intraline_diff

  /** `sum(len(w) for w in words[:i])`: the character position where token `i` starts. */
  function TokenOffset(tokens: seq<string>, i: int): nat
  {
    |Concat(SliceTo(tokens, i))|
  }

  /** The spans one opcode of the token matcher contributes to each side. */
  function OpSpans(lt: seq<string>, rt: seq<string>, op: Opcode): (seq<IntralineDiff>, seq<IntralineDiff>)
  {
    var ls, le := TokenOffset(lt, op.i1), TokenOffset(lt, op.i2);
    var rs, re := TokenOffset(rt, op.j1), TokenOffset(rt, op.j2);
    match op.tag
    case Equal => ([], [])
    case Replace => ([IntralineDiff(ls, le, "changed")], [IntralineDiff(rs, re, "changed")])
    case Delete => ([IntralineDiff(ls, le, "deleted")], [])
    case Insert => ([], [IntralineDiff(rs, re, "inserted")])
  }

  /** The spans of the loop over the token opcodes, appended in order. */
  function SpansOf(lt: seq<string>, rt: seq<string>, ops: seq<Opcode>): (seq<IntralineDiff>, seq<IntralineDiff>)
  {
    if ops == [] then ([], [])
    else
      var prev := SpansOf(lt, rt, ops[..|ops| - 1]);
      var cur := OpSpans(lt, rt, ops[|ops| - 1]);
      (prev.0 + cur.0, prev.1 + cur.1)
  }

  /**
   * `compute_intraline_diff`: the spans of the token-level diff of the two
   * lines without their line endings, or one whole-line span per side when
   * either line is longer than the threshold. `tokenMatcher` is difflib's
   * matcher over the token lists.
   */
  function ComputeIntralineDiff(opts: TextCompareOptions, leftLine: string, rightLine: string, tokenMatcher: Matcher)
    : (seq<IntralineDiff>, seq<IntralineDiff>)
  {
    var left := RStripChars(leftLine, LineEndChars);
    var right := RStripChars(rightLine, LineEndChars);
    if |left| > opts.intralineCharThreshold || |right| > opts.intralineCharThreshold then
      ([IntralineDiff(0, |left|, "changed")], [IntralineDiff(0, |right|, "changed")])
    else
      var lt, rt := Tokenize(left), Tokenize(right);
      SpansOf(lt, rt, tokenMatcher(lt, rt))
  }

  /** A span lies within a line of `n` characters. */
  predicate SpanWithin(d: IntralineDiff, n: int)
  {
    0 <= d.start <= d.end <= n
  }

  /** Token positions in range give character positions in order and within the text. */
  lemma TokenOffsetBounds(tokens: seq<string>, i: int, j: int)
    requires 0 <= i <= j <= |tokens|
    ensures TokenOffset(tokens, i) <= TokenOffset(tokens, j) <= |Concat(tokens)|
  {
    assert tokens[..j] == tokens[..i] + tokens[i..j];
    ConcatAppend(tokens[..i], tokens[i..j]);
    assert tokens == tokens[..j] + tokens[j..];
    ConcatAppend(tokens[..j], tokens[j..]);
  }

  /** Every span lies within `n` characters and is tagged `changed` or `kind`. */
  predicate SpansOk(sp: seq<IntralineDiff>, n: int, kind: string)
  {
    forall k :: 0 <= k < |sp| ==> SpanWithin(sp[k], n) && (sp[k].diffType == "changed" || sp[k].diffType == kind)
  }

  lemma {:induction false} SpansWithin(lt: seq<string>, rt: seq<string>, ops: seq<Opcode>)
    requires forall k :: 0 <= k < |ops| ==> OpcodeValid(ops[k], lt, rt)
    ensures SpansOk(SpansOf(lt, rt, ops).0, |Concat(lt)|, "deleted")
    ensures SpansOk(SpansOf(lt, rt, ops).1, |Concat(rt)|, "inserted")
  {
    if ops != [] {
      var op := ops[|ops| - 1];
      var prev := SpansOf(lt, rt, ops[..|ops| - 1]);
      var cur := OpSpans(lt, rt, op);
      SpansWithin(lt, rt, ops[..|ops| - 1]);
      assert OpcodeValid(op, lt, rt);
      TokenOffsetBounds(lt, op.i1, op.i2);
      TokenOffsetBounds(rt, op.j1, op.j2);
      assert SpansOk(cur.0, |Concat(lt)|, "deleted");
      assert SpansOk(cur.1, |Concat(rt)|, "inserted");
      assert SpansOk(prev.0 + cur.0, |Concat(lt)|, "deleted");
      assert SpansOk(prev.1 + cur.1, |Concat(rt)|, "inserted");
    }
  }

  /**
   * Intraline spans: over the threshold, one whole-line `changed` span per
   * side; otherwise every span lies within its line (without its line
   * ending), left spans are `changed` or `deleted` and right spans `changed`
   * or `inserted`.
   */
  lemma IntralineSpansWithin(opts: TextCompareOptions, leftLine: string, rightLine: string, tokenMatcher: Matcher)
    requires MatcherValid(tokenMatcher)
    ensures var left, right := RStripChars(leftLine, LineEndChars), RStripChars(rightLine, LineEndChars);
      var sp := ComputeIntralineDiff(opts, leftLine, rightLine, tokenMatcher);
      (|left| > opts.intralineCharThreshold || |right| > opts.intralineCharThreshold ==>
        sp == ([IntralineDiff(0, |left|, "changed")], [IntralineDiff(0, |right|, "changed")]))
      && SpansOk(sp.0, |left|, "deleted") && SpansOk(sp.1, |right|, "inserted")
  {
    var left, right := RStripChars(leftLine, LineEndChars), RStripChars(rightLine, LineEndChars);
    if !(|left| > opts.intralineCharThreshold || |right| > opts.intralineCharThreshold) {
      var lt, rt := Tokenize(left), Tokenize(right);
      assert MatcherGives(tokenMatcher, lt, rt);
      SpansWithin(lt, rt, tokenMatcher(lt, rt));
      TokenizeConcat(left);
      TokenizeConcat(right);
    }
  }

  // ---------------------------------------------------------------- _create_modified_lines

  /** Pair `i` of `_create_modified_lines` for the sliced ranges `ll` and `rl`. */
  function ModifiedPair(opts: TextCompareOptions, ll: seq<string>, rl: seq<string>, i1: int, j1: int, i: nat,
                        tokenMatcher: Matcher): (Option<DiffLine>, Option<DiffLine>)
  {
    var spans := if opts.computeIntraline && i < |ll| && i < |rl|
      then Some(ComputeIntralineDiff(opts, ll[i], rl[i], tokenMatcher)) else None;
    var leftLine := if i < |ll| then
        Some(DiffLine(DiffLineType.Modified, ll[i], Some(i1 + i + 1), None, if spans.Some? then Some(spans.value.0) else None))
      else None;
    var rightLine := if i < |rl| then
        Some(DiffLine(DiffLineType.Modified, rl[i], None, Some(j1 + i + 1), if spans.Some? then Some(spans.value.1) else None))
      else None;
    (leftLine, rightLine)
  }

  /**
   * `_create_modified_lines`: `max(i2 - i1, j2 - j1)` pairs; pair `i` has a
   * left line numbered `i1 + i + 1` iff `i < i2 - i1` and a right line
   * numbered `j1 + i + 1` iff `i < j2 - j1`, each holding the matching text.
   */
  function CreateModifiedLines(opts: TextCompareOptions, left: seq<string>, right: seq<string>,
                               i1: int, i2: int, j1: int, j2: int, tokenMatcher: Matcher)
    : (r: seq<(Option<DiffLine>, Option<DiffLine>)>)
    ensures var ll, rl := Slice(left, i1, i2), Slice(right, j1, j2);
      |r| == Max(|ll|, |rl|)
      && (forall i :: 0 <= i < |r| ==> (r[i].0.Some? <==> i < |ll|) && (r[i].1.Some? <==> i < |rl|))
      && (forall i :: 0 <= i < |r| && i < |ll| ==>
            (r[i].0.value.lineType == DiffLineType.Modified && r[i].0.value.content == ll[i]
             && r[i].0.value.leftLineNum == Some(i1 + i + 1) && r[i].0.value.rightLineNum == None))
      && (forall i :: 0 <= i < |r| && i < |rl| ==>
            (r[i].1.value.lineType == DiffLineType.Modified && r[i].1.value.content == rl[i]
             && r[i].1.value.leftLineNum == None && r[i].1.value.rightLineNum == Some(j1 + i + 1)))
  {
    var ll, rl := Slice(left, i1, i2), Slice(right, j1, j2);
    seq(Max(|ll|, |rl|), i requires 0 <= i < Max(|ll|, |rl|) => ModifiedPair(opts, ll, rl, i1, j1, i, tokenMatcher))
  }

  /** The lines of one pair as the `compare` loop appends them: the left one, then the right one. */
  function PairLines(p: (Option<DiffLine>, Option<DiffLine>)): seq<DiffLine>
  {
    (if p.0.Some? then [p.0.value] else []) + (if p.1.Some? then [p.1.value] else [])
  }

  /** All lines of the pairs, in the order `compare` appends them. */
  function FlatPairs(ps: seq<(Option<DiffLine>, Option<DiffLine>)>): seq<DiffLine>
  {
    if ps == [] then [] else FlatPairs(ps[..|ps| - 1]) + PairLines(ps[|ps| - 1])
  }

  lemma PairSides(p: (Option<DiffLine>, Option<DiffLine>))
    requires p.0.Some? ==> p.0.value.rightLineNum == None
    requires p.1.Some? ==> p.1.value.leftLineNum == None
    ensures LeftSide(PairLines(p)) == (if p.0.Some? then LeftSide([p.0.value]) else [])
    ensures RightNums(PairLines(p)) == (if p.1.Some? then RightNums([p.1.value]) else [])
  {
    var a := if p.0.Some? then [p.0.value] else [];
    var b := if p.1.Some? then [p.1.value] else [];
    SidesAppend(a, b);
    LeftSideNone(b);
    RightNumsNone(a);
  }

  /** Pairs whose first `nl` have a left line, line `i1 + i` of `left` numbered `i1 + i + 1`, and none further. */
  ghost predicate PairsLeftNumbered(r: seq<(Option<DiffLine>, Option<DiffLine>)>, left: seq<string>, i1: int, nl: int)
  {
    forall i :: 0 <= i < |r| ==>
      (r[i].0.Some? <==> i < nl)
      && (r[i].0.Some? ==> r[i].0.value.leftLineNum == Some(i1 + i + 1) && r[i].0.value.rightLineNum == None
                           && 0 <= i1 + i < |left| && r[i].0.value.content == left[i1 + i])
      && (r[i].1.Some? ==> r[i].1.value.leftLineNum == None)
  }

  /** Pairs whose first `nr` have a right line, numbered `j1 + i + 1`, and none further. */
  ghost predicate PairsRightNumbered(r: seq<(Option<DiffLine>, Option<DiffLine>)>, j1: int, nr: int)
  {
    forall i :: 0 <= i < |r| ==>
      (r[i].1.Some? <==> i < nr)
      && (r[i].1.Some? ==> r[i].1.value.rightLineNum == Some(j1 + i + 1))
      && (r[i].0.Some? ==> r[i].0.value.rightLineNum == None)
  }

  lemma PairStepLeft(flat: seq<DiffLine>, last: (Option<DiffLine>, Option<DiffLine>), left: seq<string>, i1: int, m: int)
    requires 0 <= i1 && 0 <= m
    requires last.0.Some? ==> last.0.value.leftLineNum == Some(i1 + m + 1) && i1 + m < |left| && last.0.value.content == left[i1 + m]
    requires last.1.Some? ==> last.1.value.leftLineNum == None
    requires i1 + m <= |left| && LeftSide(flat) == Numbered(left, i1, i1 + m)
    ensures LeftSide(flat + PairLines(last)) == Numbered(left, i1, i1 + m + (if last.0.Some? then 1 else 0))
  {
    var a := if last.0.Some? then [last.0.value] else [];
    var b := if last.1.Some? then [last.1.value] else [];
    SidesAppend(a, b);
    LeftSideNone(b);
    SidesAppend(flat, PairLines(last));
    if last.0.Some? {
      assert LeftSide(a) == [(i1 + m + 1, left[i1 + m])];
      assert LeftSide(flat + PairLines(last)) == Numbered(left, i1, i1 + m) + [(i1 + m + 1, left[i1 + m])];
      NumberedSnoc(left, i1, i1 + m);
    } else {
      assert LeftSide(a + b) == [];
      assert LeftSide(flat + PairLines(last)) == Numbered(left, i1, i1 + m) + [];
      assert Numbered(left, i1, i1 + m) + [] == Numbered(left, i1, i1 + m);
    }
  }

  lemma PairRight(last: (Option<DiffLine>, Option<DiffLine>))
    requires last.0.Some? ==> last.0.value.rightLineNum == None
    requires last.1.Some? ==> last.1.value.rightLineNum.Some?
    ensures RightNums(PairLines(last)) == (if last.1.Some? then [last.1.value.rightLineNum.value] else [])
  {
    var a := if last.0.Some? then [last.0.value] else [];
    var b := if last.1.Some? then [last.1.value] else [];
    SidesAppend(a, b);
    RightNumsNone(a);
  }

  lemma PairStepRight(flat: seq<DiffLine>, last: (Option<DiffLine>, Option<DiffLine>), j1: int, m: int)
    requires 0 <= m
    requires last.1.Some? ==> last.1.value.rightLineNum == Some(j1 + m + 1)
    requires last.0.Some? ==> last.0.value.rightLineNum == None
    requires RightNums(flat) == Counting(j1, j1 + m)
    ensures RightNums(flat + PairLines(last)) == Counting(j1, j1 + m + (if last.1.Some? then 1 else 0))
  {
    PairRight(last);
    var pl := PairLines(last);
    SidesAppend(flat, pl);
    if last.1.Some? {
      CountingExtend(flat, pl, j1, m);
    } else {
      CountingKeep(flat, pl, j1, m);
    }
  }

  lemma CountingExtend(flat: seq<DiffLine>, more: seq<DiffLine>, j1: int, m: int)
    requires 0 <= m
    requires RightNums(flat) == Counting(j1, j1 + m) && RightNums(more) == [j1 + m + 1]
    requires RightNums(flat + more) == RightNums(flat) + RightNums(more)
    ensures RightNums(flat + more) == Counting(j1, j1 + m + 1)
  {
    CountingSnoc(j1, j1 + m);
  }

  lemma CountingKeep(flat: seq<DiffLine>, more: seq<DiffLine>, j1: int, m: int)
    requires 0 <= m
    requires RightNums(flat) == Counting(j1, j1 + m) && RightNums(more) == []
    requires RightNums(flat + more) == RightNums(flat) + RightNums(more)
    ensures RightNums(flat + more) == Counting(j1, j1 + m)
  {
    assert Counting(j1, j1 + m) + [] == Counting(j1, j1 + m);
  }

  lemma {:induction false} FlatPairsLeft(r: seq<(Option<DiffLine>, Option<DiffLine>)>, left: seq<string>, i1: int, nl: int)
    requires 0 <= i1 && 0 <= nl && i1 + nl <= |left|
    requires PairsLeftNumbered(r, left, i1, nl)
    ensures LeftSide(FlatPairs(r)) == Numbered(left, i1, i1 + Min(|r|, nl))
  {
    if r != [] {
      var n := |r|;
      assert PairsLeftNumbered(r[..n - 1], left, i1, nl);
      FlatPairsLeft(r[..n - 1], left, i1, nl);
      PairStepLeft(FlatPairs(r[..n - 1]), r[n - 1], left, i1, Min(n - 1, nl));
    }
  }

  lemma {:induction false} FlatPairsRight(r: seq<(Option<DiffLine>, Option<DiffLine>)>, j1: int, nr: int)
    requires 0 <= nr
    requires PairsRightNumbered(r, j1, nr)
    ensures RightNums(FlatPairs(r)) == Counting(j1, j1 + Min(|r|, nr))
  {
    if r != [] {
      var n := |r|;
      assert PairsRightNumbered(r[..n - 1], j1, nr);
      FlatPairsRight(r[..n - 1], j1, nr);
      PairStepRight(FlatPairs(r[..n - 1]), r[n - 1], j1, Min(n - 1, nr));
    }
  }

  /** The modified pairs show left lines `i1..i2` and right numbers `j1 + 1 .. j2`, in order. */
  lemma ModifiedSides(opts: TextCompareOptions, left: seq<string>, right: seq<string>,
                      i1: int, i2: int, j1: int, j2: int, tokenMatcher: Matcher)
    requires 0 <= i1 <= i2 <= |left| && 0 <= j1 <= j2 <= |right|
    ensures LeftSide(FlatPairs(CreateModifiedLines(opts, left, right, i1, i2, j1, j2, tokenMatcher))) == Numbered(left, i1, i2)
    ensures RightNums(FlatPairs(CreateModifiedLines(opts, left, right, i1, i2, j1, j2, tokenMatcher))) == Counting(j1, j2)
  {
    var r := CreateModifiedLines(opts, left, right, i1, i2, j1, j2, tokenMatcher);
    ModifiedLeftNumbered(opts, left, right, i1, i2, j1, j2, tokenMatcher);
    FlatPairsLeft(r, left, i1, i2 - i1);
    ModifiedRightNumbered(opts, left, right, i1, i2, j1, j2, tokenMatcher);
    FlatPairsRight(r, j1, j2 - j1);
  }

  lemma ModifiedLeftNumbered(opts: TextCompareOptions, left: seq<string>, right: seq<string>,
                             i1: int, i2: int, j1: int, j2: int, tokenMatcher: Matcher)
    requires 0 <= i1 <= i2 <= |left| && 0 <= j1 <= j2 <= |right|
    ensures PairsLeftNumbered(CreateModifiedLines(opts, left, right, i1, i2, j1, j2, tokenMatcher), left, i1, i2 - i1)
  {
    var r := CreateModifiedLines(opts, left, right, i1, i2, j1, j2, tokenMatcher);
    var ll := Slice(left, i1, i2);
    assert ll == left[i1..i2];
    forall i | 0 <= i < |r| && i < |ll|
      ensures r[i].0.value.content == left[i1 + i]
    {
      assert ll[i] == left[i1 + i];
    }
  }

  lemma ModifiedRightNumbered(opts: TextCompareOptions, left: seq<string>, right: seq<string>,
                              i1: int, i2: int, j1: int, j2: int, tokenMatcher: Matcher)
    requires 0 <= i1 <= i2 <= |left| && 0 <= j1 <= j2 <= |right|
    ensures PairsRightNumbered(CreateModifiedLines(opts, left, right, i1, i2, j1, j2, tokenMatcher), j1, j2 - j1)
  {
  }

  // ---------------------------------------------------------------- _create_hunk and _calculate_statistics

  /**
   * `_create_hunk`: 1-based starts, and counts of the lines that carry a
   * left and a right number.
   */
  function CreateHunk(lines: seq<DiffLine>, startLeft: int, startRight: int): (h: DiffHunk)
    ensures h.lines == lines && h.leftStart == startLeft + 1 && h.rightStart == startRight + 1
    ensures h.leftCount == |LeftSide(lines)| && h.rightCount == |RightNums(lines)|
    ensures h.leftCount <= |lines| && h.rightCount <= |lines|
  {
    DiffHunk(startLeft + 1, |LeftSide(lines)|, startRight + 1, |RightNums(lines)|, lines, "")
  }

  /** The number of lines of type `t`. */
  function TypeCount(lines: seq<DiffLine>, t: DiffLineType): (n: nat)
    ensures n <= |lines|
  {
    if lines == [] then 0
    else TypeCount(lines[..|lines| - 1], t) + (if lines[|lines| - 1].lineType == t then 1 else 0)
  }

  /** `_calculate_statistics`: the line types tallied, the modified count halved (floor division). */
  function CalculateStatistics(lines: seq<DiffLine>, totalLeft: int, totalRight: int): (s: DiffStatistics)
  {
    DiffStatistics(totalLeft, totalRight,
      TypeCount(lines, DiffLineType.Added), TypeCount(lines, DiffLineType.Removed),
      FloorDiv(TypeCount(lines, DiffLineType.Modified), 2), TypeCount(lines, DiffLineType.Unchanged))
  }

  /** Every line has exactly one of the six types, so the tallies add up to the number of lines. */
  lemma {:induction false} TypeCountsPartition(lines: seq<DiffLine>)
    ensures TypeCount(lines, DiffLineType.Unchanged) + TypeCount(lines, DiffLineType.Added)
      + TypeCount(lines, DiffLineType.Removed) + TypeCount(lines, DiffLineType.Modified)
      + TypeCount(lines, DiffLineType.Context) + TypeCount(lines, DiffLineType.Empty) == |lines|
  {
    if lines != [] {
      TypeCountsPartition(lines[..|lines| - 1]);
    }
  }

  /**
   * The statistics tally what the diff lines hold: unchanged, added, removed
   * and twice the modified count (less one when it was odd), with the context
   * and empty lines the statistics do not count, make up all the lines.
   */
  lemma StatisticsTally(lines: seq<DiffLine>, totalLeft: int, totalRight: int)
    ensures var s := CalculateStatistics(lines, totalLeft, totalRight);
      s.totalLinesLeft == totalLeft && s.totalLinesRight == totalRight
      && s.unchangedLines + s.addedLines + s.removedLines + 2 * s.modifiedLines
         + TypeCount(lines, DiffLineType.Modified) % 2
         + TypeCount(lines, DiffLineType.Context) + TypeCount(lines, DiffLineType.Empty) == |lines|
  {
    TypeCountsPartition(lines);
  }

  // ---------------------------------------------------------------- the hunk-building loop of compare

  /** The shape `compare` relies on for one opcode over sides of `n` and `m` lines. */
  predicate ShapeOk(op: Opcode, n: int, m: int)
  {
    0 <= op.i1 <= op.i2 <= n && 0 <= op.j1 <= op.j2 <= m
    && match op.tag
       case Equal => op.i2 - op.i1 == op.j2 - op.j1 && op.i1 < op.i2
       case Replace => op.i1 < op.i2 && op.j1 < op.j2
       case Delete => op.i1 < op.i2 && op.j1 == op.j2
       case Insert => op.i1 == op.i2 && op.j1 < op.j2
  }

  predicate AllShapeOk(ops: seq<Opcode>, n: int, m: int)
  {
    forall k :: 0 <= k < |ops| ==> ShapeOk(ops[k], n, m)
  }

  /** What the last opcode and the ones before it inherit from all of them. */
  lemma SnocShape(ops: seq<Opcode>, n: int, m: int)
    requires ops != [] && AllShapeOk(ops, n, m)
    ensures AllShapeOk(ops[..|ops| - 1], n, m) && ShapeOk(ops[|ops| - 1], n, m)
    ensures AllEqual(ops) <==> AllEqual(ops[..|ops| - 1]) && ops[|ops| - 1].tag == Equal
  {
    var prev := ops[..|ops| - 1];
    assert forall k :: 0 <= k < |prev| ==> ops[k] == prev[k];
  }

  /** Where the opcodes so far end on the left, and on the right. */
  function EndLeft(ops: seq<Opcode>): int
  {
    if ops == [] then 0 else ops[|ops| - 1].i2
  }

  function EndRight(ops: seq<Opcode>): int
  {
    if ops == [] then 0 else ops[|ops| - 1].j2
  }

  /** Opcodes of the right shape that follow one another from the start of both sides. */
  predicate OpsChain(ops: seq<Opcode>, n: int, m: int)
  {
    AllShapeOk(ops, n, m)
    && (ops != [] ==> ops[0].i1 == 0 && ops[0].j1 == 0)
    && (forall k :: 0 <= k < |ops| - 1 ==> ops[k].i2 == ops[k + 1].i1 && ops[k].j2 == ops[k + 1].j1)
  }

  lemma OpsChainPrefix(ops: seq<Opcode>, n: int, m: int)
    requires OpsChain(ops, n, m) && ops != []
    ensures OpsChain(ops[..|ops| - 1], n, m)
    ensures ops[|ops| - 1].i1 == EndLeft(ops[..|ops| - 1]) && ops[|ops| - 1].j1 == EndRight(ops[..|ops| - 1])
  {
  }

  /** difflib's opcodes for the normalized sides have the shape the loop needs and cover both sides. */
  lemma OpcodesChain(ops: seq<Opcode>, a: seq<string>, b: seq<string>)
    requires OpcodesValid(ops, a, b)
    ensures OpsChain(ops, |a|, |b|) && EndLeft(ops) == |a| && EndRight(ops) == |b|
  {
    forall k | 0 <= k < |ops|
      ensures ShapeOk(ops[k], |a|, |b|)
    {
      assert OpcodeValid(ops[k], a, b);
    }
  }

  predicate AllEqual(ops: seq<Opcode>)
  {
    forall k :: 0 <= k < |ops| ==> ops[k].tag == Equal
  }

  /** Opcodes that are all `equal` and cover both sides say the two sides are the same. */
  lemma {:induction false} AllEqualSame(ops: seq<Opcode>, a: seq<string>, b: seq<string>)
    requires OpcodesValid(ops, a, b) && AllEqual(ops)
    ensures a == b
  {
    OpcodesChain(ops, a, b);
    EqualPrefixSame(ops, a, b, |ops|);
  }

  lemma {:induction false} EqualPrefixSame(ops: seq<Opcode>, a: seq<string>, b: seq<string>, k: nat)
    requires OpcodesValid(ops, a, b) && AllEqual(ops) && k <= |ops|
    ensures k == 0 || (0 <= ops[k - 1].i2 <= |a| && ops[k - 1].i2 == ops[k - 1].j2 && a[..ops[k - 1].i2] == b[..ops[k - 1].j2])
  {
    if k > 0 {
      var op := ops[k - 1];
      assert OpcodeValid(op, a, b);
      EqualPrefixSame(ops, a, b, k - 1);
      if k == 1 {
        assert a[..op.i2] == a[op.i1..op.i2];
        assert b[..op.j2] == b[op.j1..op.j2];
      } else {
        var prev := ops[k - 2];
        assert prev.i2 == op.i1 && prev.j2 == op.j1;
        assert a[..op.i2] == a[..op.i1] + a[op.i1..op.i2];
        assert b[..op.j2] == b[..op.j1] + b[op.j1..op.j2];
      }
    }
  }

  /** The variables of the loop in `compare`. */
  datatype Build = Build(
    diffLines: seq<DiffLine>, linePairs: seq<LinePair>, hunks: seq<DiffHunk>,
    current: seq<DiffLine>, startLeft: int, startRight: int, inHunk: bool, buffer: seq<DiffLine>)

  const Initial := Build([], [], [], [], 0, 0, false, [])

  function UnchangedPairs(ls: seq<DiffLine>): (r: seq<LinePair>)
    ensures |r| == |ls|
  {
    seq(|ls|, k requires 0 <= k < |ls| => LinePair(Some(ls[k]), Some(ls[k]), DiffLineType.Unchanged))
  }

  function ModifiedPairs(ps: seq<(Option<DiffLine>, Option<DiffLine>)>): (r: seq<LinePair>)
    ensures |r| == |ps|
  {
    seq(|ps|, k requires 0 <= k < |ps| => LinePair(ps[k].0, ps[k].1, DiffLineType.Modified))
  }

  function RemovedPairs(ls: seq<DiffLine>): (r: seq<LinePair>)
    ensures |r| == |ls|
  {
    seq(|ls|, k requires 0 <= k < |ls| => LinePair(Some(ls[k]), None, DiffLineType.Removed))
  }

  function AddedPairs(ls: seq<DiffLine>): (r: seq<LinePair>)
    ensures |r| == |ls|
  {
    seq(|ls|, k requires 0 <= k < |ls| => LinePair(None, Some(ls[k]), DiffLineType.Added))
  }

  /**
   * Where a newly opened hunk starts. As written, `compare` takes the first
   * changed line (`i1`, `j1`); counting the leading context lines it has just
   * copied from the buffer, it starts `|buffer|` lines earlier.
   */
  function HunkStart(i: int, buffer: seq<DiffLine>, countContext: bool): int
  {
    if countContext then i - |buffer| else i
  }

  /** A change opcode opens a hunk unless one is open, moving the buffered context into it. */
  function Open(st: Build, op: Opcode, countContext: bool): (r: Build)
  {
    if st.inHunk then st
    else st.(inHunk := true, startLeft := HunkStart(op.i1, st.buffer, countContext),
             startRight := HunkStart(op.j1, st.buffer, countContext),
             current := st.current + st.buffer, buffer := [])
  }

  /** The diff lines and line pairs of a change opcode. */
  function ChangeOutput(opts: TextCompareOptions, left: seq<string>, right: seq<string>, op: Opcode,
                        tokenMatcher: Matcher): (seq<DiffLine>, seq<LinePair>)
    requires 0 <= op.i1 <= op.i2 <= |left| && 0 <= op.j1 <= op.j2 <= |right|
  {
    match op.tag
    case Replace =>
      var ps := CreateModifiedLines(opts, left, right, op.i1, op.i2, op.j1, op.j2, tokenMatcher);
      (FlatPairs(ps), ModifiedPairs(ps))
    case Delete =>
      var ls := CreateRemovedLines(left, op.i1, op.i2);
      (ls, RemovedPairs(ls))
    case Insert =>
      var ls := CreateAddedLines(right, op.j1, op.j2, op.i1);
      (ls, AddedPairs(ls))
    case Equal => ([], [])
  }

  /** An `equal` opcode: context for the open hunk, which closes when the gap exceeds twice the context. */
  function EqualStep(opts: TextCompareOptions, st: Build, eq: seq<DiffLine>): (r: Build)
  {
    var c := opts.contextLines;
    var st1 :=
      if st.inHunk then
        var cur := st.current + SliceTo(eq, c);
        if |eq| > c * 2 then
          st.(hunks := st.hunks + [CreateHunk(cur, st.startLeft, st.startRight)], current := [], inHunk := false,
              buffer := SliceFrom(eq, -c))
        else st.(current := cur + SliceFrom(eq, c))
      else st.(buffer := if eq != [] then SliceFrom(eq, -c) else []);
    st1.(diffLines := st1.diffLines + eq, linePairs := st1.linePairs + UnchangedPairs(eq))
  }

  /** One iteration of the loop over the opcodes. */
  function Step(opts: TextCompareOptions, left: seq<string>, right: seq<string>, tokenMatcher: Matcher,
                countContext: bool, st: Build, op: Opcode): (r: Build)
    requires 0 <= op.i1 <= op.i2 <= |left| && 0 <= op.j1 <= op.j2 <= |right|
  {
    if op.tag == Equal then
      EqualStep(opts, st, CreateEqualLines(left, op.i1, op.i2, op.j1))
    else
      var started := Open(st, op, countContext);
      var change := ChangeOutput(opts, left, right, op, tokenMatcher);
      started.(diffLines := started.diffLines + change.0, current := started.current + change.0,
              linePairs := started.linePairs + change.1)
  }

  /** The loop state after the opcodes `ops`, in order. */
  function Run(opts: TextCompareOptions, left: seq<string>, right: seq<string>, tokenMatcher: Matcher,
               countContext: bool, ops: seq<Opcode>): (r: Build)
    requires AllShapeOk(ops, |left|, |right|)
  {
    if ops == [] then Initial
    else Step(opts, left, right, tokenMatcher, countContext, Run(opts, left, right, tokenMatcher, countContext, ops[..|ops| - 1]), ops[|ops| - 1])
  }

  /** After the loop: the open hunk is closed if it holds any line. */
  function FinalHunks(st: Build): seq<DiffHunk>
  {
    if st.inHunk && st.current != [] then st.hunks + [CreateHunk(st.current, st.startLeft, st.startRight)]
    else st.hunks
  }

  // ---------------------------------------------------------------- what the loop builds

  lemma SliceToIs<T>(s: seq<T>, j: int)
    ensures SliceTo(s, j) == s[..ClampIndex(j, |s|)]
  {
  }

  lemma SliceFromIs<T>(s: seq<T>, i: int)
    ensures SliceFrom(s, i) == s[ClampIndex(i, |s|)..]
  {
  }

  /** `s[:c] + s[c:] == s` for every `c`. */
  lemma SliceSplit<T>(s: seq<T>, c: int)
    ensures SliceTo(s, c) + SliceFrom(s, c) == s
  {
    SliceToIs(s, c);
    SliceFromIs(s, c);
    assert s == s[..ClampIndex(c, |s|)] + s[ClampIndex(c, |s|)..];
  }

  /** The diff lines one opcode adds. */
  function OpLines(opts: TextCompareOptions, left: seq<string>, right: seq<string>, op: Opcode,
                   tokenMatcher: Matcher): seq<DiffLine>
    requires 0 <= op.i1 <= op.i2 <= |left| && 0 <= op.j1 <= op.j2 <= |right|
  {
    if op.tag == Equal then CreateEqualLines(left, op.i1, op.i2, op.j1)
    else ChangeOutput(opts, left, right, op, tokenMatcher).0
  }

  /** The lines of one opcode show left lines `i1..i2` and right numbers `j1 + 1 .. j2`. */
  lemma OpLinesSides(opts: TextCompareOptions, left: seq<string>, right: seq<string>, op: Opcode, tokenMatcher: Matcher)
    requires ShapeOk(op, |left|, |right|)
    ensures LeftSide(OpLines(opts, left, right, op, tokenMatcher)) == Numbered(left, op.i1, op.i2)
    ensures RightNums(OpLines(opts, left, right, op, tokenMatcher)) == Counting(op.j1, op.j2)
    ensures op.tag != Equal ==> OpLines(opts, left, right, op, tokenMatcher) != []
  {
    BuilderSides(left, right, op.i1, op.i2, op.j1, op.j2);
    if op.tag == Replace {
      ModifiedSides(opts, left, right, op.i1, op.i2, op.j1, op.j2, tokenMatcher);
    }
  }

  lemma StepLines(opts: TextCompareOptions, left: seq<string>, right: seq<string>, tokenMatcher: Matcher,
                  countContext: bool, st: Build, op: Opcode)
    requires 0 <= op.i1 <= op.i2 <= |left| && 0 <= op.j1 <= op.j2 <= |right|
    ensures Step(opts, left, right, tokenMatcher, countContext, st, op).diffLines
      == st.diffLines + OpLines(opts, left, right, op, tokenMatcher)
  {
  }

  lemma NumberedSplit(lines: seq<string>, i: int, j: int, k: int)
    requires 0 <= i <= j <= k <= |lines|
    ensures Numbered(lines, i, j) + Numbered(lines, j, k) == Numbered(lines, i, k)
  {
  }

  lemma CountingSplit(i: int, j: int, k: int)
    requires i <= j <= k
    ensures Counting(i, j) + Counting(j, k) == Counting(i, k)
  {
  }

  /**
   * The diff lines show every line of the left side once, in order and with
   * its number, and number the right side's lines `1 .. n` in order.
   */
  lemma {:induction false} RunSides(opts: TextCompareOptions, left: seq<string>, right: seq<string>,
                                    tokenMatcher: Matcher, countContext: bool, ops: seq<Opcode>)
    requires OpsChain(ops, |left|, |right|)
    ensures 0 <= EndLeft(ops) <= |left| && 0 <= EndRight(ops) <= |right|
    ensures LeftSide(Run(opts, left, right, tokenMatcher, countContext, ops).diffLines) == Numbered(left, 0, EndLeft(ops))
    ensures RightNums(Run(opts, left, right, tokenMatcher, countContext, ops).diffLines) == Counting(0, EndRight(ops))
  {
    if ops != [] {
      var n := |ops|;
      var op := ops[n - 1];
      OpsChainPrefix(ops, |left|, |right|);
      RunSides(opts, left, right, tokenMatcher, countContext, ops[..n - 1]);
      var st := Run(opts, left, right, tokenMatcher, countContext, ops[..n - 1]);
      assert ShapeOk(op, |left|, |right|);
      StepLines(opts, left, right, tokenMatcher, countContext, st, op);
      OpLinesSides(opts, left, right, op, tokenMatcher);
      SidesAppend(st.diffLines, OpLines(opts, left, right, op, tokenMatcher));
      NumberedSplit(left, 0, op.i1, op.i2);
      CountingSplit(0, op.j1, op.j2);
    }
  }

  /** The loop's flags: a hunk is open exactly while it holds lines, and the buffer is empty inside one. */
  predicate FlagsOk(st: Build)
  {
    (!st.inHunk ==> st.current == []) && (st.inHunk ==> st.current != [] && st.buffer == [])
  }

  /** Nothing has been reported yet: no hunk closed and none open. */
  predicate Quiet(st: Build)
  {
    st.hunks == [] && !st.inHunk
  }

  lemma EqualStepFlags(opts: TextCompareOptions, st: Build, eq: seq<DiffLine>)
    requires FlagsOk(st)
    ensures FlagsOk(EqualStep(opts, st, eq))
    ensures Quiet(EqualStep(opts, st, eq)) <==> Quiet(st)
  {
  }

  lemma ChangeStepFlags(opts: TextCompareOptions, left: seq<string>, right: seq<string>, tokenMatcher: Matcher,
                        countContext: bool, st: Build, op: Opcode)
    requires ShapeOk(op, |left|, |right|) && op.tag != Equal && FlagsOk(st)
    ensures var r := Step(opts, left, right, tokenMatcher, countContext, st, op);
      FlagsOk(r) && r.inHunk && r.hunks == st.hunks
  {
    OpLinesSides(opts, left, right, op, tokenMatcher);
  }

  /**
   * The loop reports nothing (no hunk closed, none open) exactly while every
   * opcode so far is `equal`; a hunk is open exactly while it holds lines.
   */
  lemma {:induction false} RunQuiet(opts: TextCompareOptions, left: seq<string>, right: seq<string>,
                                    tokenMatcher: Matcher, countContext: bool, ops: seq<Opcode>)
    requires AllShapeOk(ops, |left|, |right|)
    ensures FlagsOk(Run(opts, left, right, tokenMatcher, countContext, ops))
    ensures Quiet(Run(opts, left, right, tokenMatcher, countContext, ops)) <==> AllEqual(ops)
  {
    if ops != [] {
      var n := |ops|;
      var op := ops[n - 1];
      var prev := ops[..n - 1];
      SnocShape(ops, |left|, |right|);
      RunQuiet(opts, left, right, tokenMatcher, countContext, prev);
      var st := Run(opts, left, right, tokenMatcher, countContext, prev);
      assert Run(opts, left, right, tokenMatcher, countContext, ops) == Step(opts, left, right, tokenMatcher, countContext, st, op);
      if op.tag == Equal {
        EqualStepFlags(opts, st, CreateEqualLines(left, op.i1, op.i2, op.j1));
      } else {
        ChangeStepFlags(opts, left, right, tokenMatcher, countContext, st, op);
      }
    }
  }

  /** No hunk at the end exactly when every opcode is `equal`. */
  lemma NoHunksIffAllEqual(opts: TextCompareOptions, left: seq<string>, right: seq<string>,
                           tokenMatcher: Matcher, countContext: bool, ops: seq<Opcode>)
    requires AllShapeOk(ops, |left|, |right|)
    ensures FinalHunks(Run(opts, left, right, tokenMatcher, countContext, ops)) == [] <==> AllEqual(ops)
  {
    RunQuiet(opts, left, right, tokenMatcher, countContext, ops);
  }

  // ---------------------------------------------------------------- the lines a hunk shows

  /** `ls` shows left lines `a..b` and right numbers `c + 1 .. d`, in order. */
  ghost predicate Shows(ls: seq<DiffLine>, left: seq<string>, right: seq<string>, a: int, b: int, c: int, d: int)
  {
    0 <= a <= b <= |left| && 0 <= c <= d <= |right|
    && LeftSide(ls) == Numbered(left, a, b) && RightNums(ls) == Counting(c, d)
  }

  /**
   * A hunk whose header tells the truth: its lines show left lines
   * `leftStart .. leftStart + leftCount - 1` and right lines
   * `rightStart .. rightStart + rightCount - 1` (1-based), in order.
   */
  ghost predicate HunkExact(h: DiffHunk, left: seq<string>, right: seq<string>)
  {
    Shows(h.lines, left, right, h.leftStart - 1, h.leftStart - 1 + h.leftCount, h.rightStart - 1, h.rightStart - 1 + h.rightCount)
  }

  lemma ShowsAppend(x: seq<DiffLine>, y: seq<DiffLine>, left: seq<string>, right: seq<string>,
                    a: int, b: int, e: int, c: int, d: int, f: int)
    requires Shows(x, left, right, a, b, c, d) && Shows(y, left, right, b, e, d, f)
    ensures Shows(x + y, left, right, a, e, c, f)
  {
    SidesAppend(x, y);
    NumberedSplit(left, a, b, e);
    CountingSplit(c, d, f);
  }

  lemma ShowsEmpty(left: seq<string>, right: seq<string>, a: int, c: int)
    requires 0 <= a <= |left| && 0 <= c <= |right|
    ensures Shows([], left, right, a, a, c, c)
  {
  }

  lemma CreateHunkExact(lines: seq<DiffLine>, left: seq<string>, right: seq<string>, a: int, b: int, c: int, d: int)
    requires Shows(lines, left, right, a, b, c, d)
    ensures HunkExact(CreateHunk(lines, a, c), left, right)
  {
  }

  /** Any run `x..y` of an `equal` opcode's lines shows the matching lines of both sides. */
  lemma EqualSliceShows(left: seq<string>, right: seq<string>, op: Opcode, x: int, y: int)
    requires ShapeOk(op, |left|, |right|) && op.tag == Equal && 0 <= x <= y <= op.i2 - op.i1
    ensures Shows(CreateEqualLines(left, op.i1, op.i2, op.j1)[x..y], left, right, op.i1 + x, op.i1 + y, op.j1 + x, op.j1 + y)
  {
    var part := CreateEqualLines(left, op.i1, op.i2, op.j1)[x..y];
    LeftSideNumbered(part, left, op.i1 + x);
    RightNumsCounting(part, op.j1 + x);
  }

  /** The buffered context shows the lines just before `pos` and `rpos`. */
  ghost predicate BufferOk(buf: seq<DiffLine>, left: seq<string>, right: seq<string>, pos: int, rpos: int)
  {
    Shows(buf, left, right, pos - |buf|, pos, rpos - |buf|, rpos)
  }

  /** While a hunk is open it shows consecutive lines ending where the opcodes end; otherwise the buffer does. */
  ghost predicate HunkInv(st: Build, left: seq<string>, right: seq<string>, pos: int, rpos: int)
  {
    (forall k :: 0 <= k < |st.hunks| ==> HunkExact(st.hunks[k], left, right))
    && (!st.inHunk ==> BufferOk(st.buffer, left, right, pos, rpos))
    && (st.inHunk ==> Shows(st.current, left, right, st.startLeft, pos, st.startRight, rpos))
  }

  /** The buffer keeps the tail of an `equal` opcode: a suffix of its lines. */
  lemma BufferShows(left: seq<string>, right: seq<string>, op: Opcode, eq: seq<DiffLine>, c: int)
    requires ShapeOk(op, |left|, |right|) && op.tag == Equal && eq == CreateEqualLines(left, op.i1, op.i2, op.j1)
    ensures BufferOk(SliceFrom(eq, -c), left, right, op.i2, op.j2)
  {
    SliceFromIs(eq, -c);
    var x := ClampIndex(-c, |eq|);
    EqualSliceShows(left, right, op, x, |eq|);
    ShowsMoved(CreateEqualLines(left, op.i1, op.i2, op.j1)[x..], SliceFrom(eq, -c), left, right,
               op.i1 + x, op.i1 + |eq|, op.j1 + x, op.j1 + |eq|, op.i2, op.j2);
  }

  /** `Shows` for the same lines, stated with the end positions and the length. */
  lemma ShowsMoved(ls: seq<DiffLine>, buf: seq<DiffLine>, left: seq<string>, right: seq<string>,
                   a: int, b: int, c: int, d: int, pos: int, rpos: int)
    requires ls == buf && Shows(ls, left, right, a, b, c, d) && b == pos && d == rpos
    requires b - a == |buf| && d - c == |buf|
    ensures BufferOk(buf, left, right, pos, rpos)
  {
  }

  lemma HunksExactAppend(hs: seq<DiffHunk>, h: DiffHunk, left: seq<string>, right: seq<string>)
    requires forall k :: 0 <= k < |hs| ==> HunkExact(hs[k], left, right)
    requires HunkExact(h, left, right)
    ensures forall k :: 0 <= k < |hs + [h]| ==> HunkExact((hs + [h])[k], left, right)
  {
  }

  /** The leading context `compare` takes of an `equal` opcode's lines, `eq[:c]`, shows consecutive lines of both sides. */
  lemma EqualHead(left: seq<string>, right: seq<string>, op: Opcode, eq: seq<DiffLine>, c: int)
    requires ShapeOk(op, |left|, |right|) && op.tag == Equal && eq == CreateEqualLines(left, op.i1, op.i2, op.j1)
    ensures Shows(SliceTo(eq, c), left, right, op.i1, op.i1 + ClampIndex(c, |eq|), op.j1, op.j1 + ClampIndex(c, |eq|))
  {
    SliceToIs(eq, c);
    EqualSliceShows(left, right, op, 0, ClampIndex(c, |eq|));
  }

  /** The hunk an `equal` opcode closes: the open hunk's lines and the leading context. */
  lemma ClosedHunkExact(opts: TextCompareOptions, left: seq<string>, right: seq<string>, st: Build, op: Opcode, eq: seq<DiffLine>)
    requires ShapeOk(op, |left|, |right|) && op.tag == Equal && eq == CreateEqualLines(left, op.i1, op.i2, op.j1)
    requires st.inHunk && HunkInv(st, left, right, op.i1, op.j1)
    ensures HunkExact(CreateHunk(st.current + SliceTo(eq, opts.contextLines), st.startLeft, st.startRight), left, right)
  {
    var c := opts.contextLines;
    var k := ClampIndex(c, |eq|);
    EqualHead(left, right, op, eq, c);
    ShowsAppend(st.current, SliceTo(eq, c), left, right, st.startLeft, op.i1, op.i1 + k, st.startRight, op.j1, op.j1 + k);
    CreateHunkExact(st.current + SliceTo(eq, c), left, right, st.startLeft, op.i1 + k, st.startRight, op.j1 + k);
  }

  /** `HunkInv` of a state given by its fields, so that callers need not unfold how it was built. */
  lemma HunkInvOf(r: Build, left: seq<string>, right: seq<string>, pos: int, rpos: int,
                  hunks: seq<DiffHunk>, inHunk: bool, current: seq<DiffLine>, buffer: seq<DiffLine>, sl: int, sr: int)
    requires r.hunks == hunks && r.inHunk == inHunk && r.current == current && r.buffer == buffer
    requires r.startLeft == sl && r.startRight == sr
    requires forall k :: 0 <= k < |hunks| ==> HunkExact(hunks[k], left, right)
    requires !inHunk ==> BufferOk(buffer, left, right, pos, rpos)
    requires inHunk ==> Shows(current, left, right, sl, pos, sr, rpos)
    ensures HunkInv(r, left, right, pos, rpos)
  {
  }

  /** The fields of the state after an `equal` opcode, case by case. */
  lemma EqualStepFields(opts: TextCompareOptions, st: Build, eq: seq<DiffLine>)
    ensures var r, c := EqualStep(opts, st, eq), opts.contextLines;
      r.diffLines == st.diffLines + eq && r.linePairs == st.linePairs + UnchangedPairs(eq)
      && (st.inHunk && |eq| > c * 2 ==>
            r.hunks == st.hunks + [CreateHunk(st.current + SliceTo(eq, c), st.startLeft, st.startRight)]
            && !r.inHunk && r.current == [] && r.buffer == SliceFrom(eq, -c))
      && (st.inHunk && |eq| <= c * 2 ==>
            r.hunks == st.hunks && r.inHunk && r.current == st.current + SliceTo(eq, c) + SliceFrom(eq, c)
            && r.startLeft == st.startLeft && r.startRight == st.startRight && r.buffer == st.buffer)
      && (!st.inHunk ==>
            r.hunks == st.hunks && !r.inHunk && r.current == st.current
            && r.startLeft == st.startLeft && r.startRight == st.startRight
            && r.buffer == (if eq != [] then SliceFrom(eq, -c) else []))
  {
  }

  lemma EqualCloseHunks(opts: TextCompareOptions, left: seq<string>, right: seq<string>, st: Build, eq: seq<DiffLine>,
                        i2: int, j2: int)
    requires st.inHunk && |eq| > opts.contextLines * 2
    requires forall k :: 0 <= k < |st.hunks| ==> HunkExact(st.hunks[k], left, right)
    requires HunkExact(CreateHunk(st.current + SliceTo(eq, opts.contextLines), st.startLeft, st.startRight), left, right)
    requires BufferOk(SliceFrom(eq, -opts.contextLines), left, right, i2, j2)
    ensures HunkInv(EqualStep(opts, st, eq), left, right, i2, j2)
  {
    var c := opts.contextLines;
    var h := CreateHunk(st.current + SliceTo(eq, c), st.startLeft, st.startRight);
    HunksExactAppend(st.hunks, h, left, right);
    var r := EqualStep(opts, st, eq);
    EqualStepFields(opts, st, eq);
    HunkInvOf(r, left, right, i2, j2, st.hunks + [h], false, r.current, SliceFrom(eq, -c), r.startLeft, r.startRight);
  }

  lemma EqualKeepHunks(opts: TextCompareOptions, left: seq<string>, right: seq<string>, st: Build, eq: seq<DiffLine>,
                       i2: int, j2: int)
    requires st.inHunk && !(|eq| > opts.contextLines * 2)
    requires forall k :: 0 <= k < |st.hunks| ==> HunkExact(st.hunks[k], left, right)
    requires Shows(st.current + SliceTo(eq, opts.contextLines) + SliceFrom(eq, opts.contextLines), left, right,
                   st.startLeft, i2, st.startRight, j2)
    ensures HunkInv(EqualStep(opts, st, eq), left, right, i2, j2)
  {
    var c := opts.contextLines;
    var r := EqualStep(opts, st, eq);
    EqualStepFields(opts, st, eq);
    HunkInvOf(r, left, right, i2, j2, st.hunks, true, st.current + SliceTo(eq, c) + SliceFrom(eq, c), r.buffer,
              st.startLeft, st.startRight);
  }

  /** A short gap keeps the hunk open with all of the `equal` lines in it. */
  lemma KeptContext(opts: TextCompareOptions, left: seq<string>, right: seq<string>, st: Build, op: Opcode, eq: seq<DiffLine>)
    requires ShapeOk(op, |left|, |right|) && op.tag == Equal && eq == CreateEqualLines(left, op.i1, op.i2, op.j1)
    requires st.inHunk && HunkInv(st, left, right, op.i1, op.j1)
    ensures Shows(st.current + SliceTo(eq, opts.contextLines) + SliceFrom(eq, opts.contextLines), left, right,
                  st.startLeft, op.i2, st.startRight, op.j2)
  {
    var c := opts.contextLines;
    SliceSplit(eq, c);
    assert st.current + SliceTo(eq, c) + SliceFrom(eq, c) == st.current + eq;
    EqualSliceShows(left, right, op, 0, |eq|);
    assert eq[0..|eq|] == eq;
    ShowsAppend(st.current, eq, left, right, st.startLeft, op.i1, op.i2, st.startRight, op.j1, op.j2);
  }

  lemma EqualBufferHunks(opts: TextCompareOptions, left: seq<string>, right: seq<string>, st: Build, eq: seq<DiffLine>,
                         i2: int, j2: int)
    requires !st.inHunk && eq != []
    requires forall k :: 0 <= k < |st.hunks| ==> HunkExact(st.hunks[k], left, right)
    requires BufferOk(SliceFrom(eq, -opts.contextLines), left, right, i2, j2)
    ensures HunkInv(EqualStep(opts, st, eq), left, right, i2, j2)
  {
    var c := opts.contextLines;
    var r := EqualStep(opts, st, eq);
    EqualStepFields(opts, st, eq);
    HunkInvOf(r, left, right, i2, j2, st.hunks, false, r.current, SliceFrom(eq, -c), r.startLeft, r.startRight);
  }

  lemma EqualBufferCase(opts: TextCompareOptions, left: seq<string>, right: seq<string>, st: Build, op: Opcode)
    requires ShapeOk(op, |left|, |right|) && op.tag == Equal && !st.inHunk
    requires HunkInv(st, left, right, op.i1, op.j1)
    ensures HunkInv(EqualStep(opts, st, CreateEqualLines(left, op.i1, op.i2, op.j1)), left, right, op.i2, op.j2)
  {
    var eq := CreateEqualLines(left, op.i1, op.i2, op.j1);
    BufferShows(left, right, op, eq, opts.contextLines);
    EqualBufferHunks(opts, left, right, st, eq, op.i2, op.j2);
  }

  lemma EqualCloseCase(opts: TextCompareOptions, left: seq<string>, right: seq<string>, st: Build, op: Opcode)
    requires ShapeOk(op, |left|, |right|) && op.tag == Equal && st.inHunk
    requires op.i2 - op.i1 > opts.contextLines * 2
    requires HunkInv(st, left, right, op.i1, op.j1)
    ensures HunkInv(EqualStep(opts, st, CreateEqualLines(left, op.i1, op.i2, op.j1)), left, right, op.i2, op.j2)
  {
    var eq := CreateEqualLines(left, op.i1, op.i2, op.j1);
    BufferShows(left, right, op, eq, opts.contextLines);
    ClosedHunkExact(opts, left, right, st, op, eq);
    EqualCloseHunks(opts, left, right, st, eq, op.i2, op.j2);
  }

  lemma EqualKeepCase(opts: TextCompareOptions, left: seq<string>, right: seq<string>, st: Build, op: Opcode)
    requires ShapeOk(op, |left|, |right|) && op.tag == Equal && st.inHunk
    requires op.i2 - op.i1 <= opts.contextLines * 2
    requires HunkInv(st, left, right, op.i1, op.j1)
    ensures HunkInv(EqualStep(opts, st, CreateEqualLines(left, op.i1, op.i2, op.j1)), left, right, op.i2, op.j2)
  {
    var eq := CreateEqualLines(left, op.i1, op.i2, op.j1);
    KeptContext(opts, left, right, st, op, eq);
    EqualKeepHunks(opts, left, right, st, eq, op.i2, op.j2);
  }

  lemma EqualStepHunks(opts: TextCompareOptions, left: seq<string>, right: seq<string>, st: Build, op: Opcode)
    requires ShapeOk(op, |left|, |right|) && op.tag == Equal
    requires HunkInv(st, left, right, op.i1, op.j1)
    ensures HunkInv(EqualStep(opts, st, CreateEqualLines(left, op.i1, op.i2, op.j1)), left, right, op.i2, op.j2)
  {
    if !st.inHunk {
      EqualBufferCase(opts, left, right, st, op);
    } else if op.i2 - op.i1 > opts.contextLines * 2 {
      EqualCloseCase(opts, left, right, st, op);
    } else {
      EqualKeepCase(opts, left, right, st, op);
    }
  }

  lemma OpenExtendHunks(st: Build, r: Build, op: Opcode, lines: seq<DiffLine>, left: seq<string>, right: seq<string>)
    requires FlagsOk(st) && HunkInv(st, left, right, op.i1, op.j1)
    requires Shows(lines, left, right, op.i1, op.i2, op.j1, op.j2)
    requires var started := Open(st, op, true);
      r.hunks == st.hunks && r.inHunk && r.current == started.current + lines
      && r.startLeft == started.startLeft && r.startRight == started.startRight
    ensures HunkInv(r, left, right, op.i2, op.j2)
  {
    var started := Open(st, op, true);
    if !st.inHunk {
      assert started.current == st.buffer;
    }
    ShowsAppend(started.current, lines, left, right, started.startLeft, op.i1, op.i2, started.startRight, op.j1, op.j2);
  }

  lemma ChangeStepHunks(opts: TextCompareOptions, left: seq<string>, right: seq<string>, tokenMatcher: Matcher,
                        st: Build, op: Opcode)
    requires ShapeOk(op, |left|, |right|) && op.tag != Equal
    requires FlagsOk(st) && HunkInv(st, left, right, op.i1, op.j1)
    ensures HunkInv(Step(opts, left, right, tokenMatcher, true, st, op), left, right, op.i2, op.j2)
  {
    OpLinesSides(opts, left, right, op, tokenMatcher);
    var lines := OpLines(opts, left, right, op, tokenMatcher);
    OpenExtendHunks(st, Step(opts, left, right, tokenMatcher, true, st, op), op, lines, left, right);
  }

  /** With the hunk start counting its leading context, every hunk header describes exactly the lines of the hunk. */
  lemma {:induction false} RunHunksExact(opts: TextCompareOptions, left: seq<string>, right: seq<string>,
                                         tokenMatcher: Matcher, ops: seq<Opcode>)
    requires OpsChain(ops, |left|, |right|)
    ensures 0 <= EndLeft(ops) <= |left| && 0 <= EndRight(ops) <= |right|
    ensures HunkInv(Run(opts, left, right, tokenMatcher, true, ops), left, right, EndLeft(ops), EndRight(ops))
  {
    if ops == [] {
      ShowsEmpty(left, right, 0, 0);
    } else {
      var n := |ops|;
      var op := ops[n - 1];
      OpsChainPrefix(ops, |left|, |right|);
      RunHunksExact(opts, left, right, tokenMatcher, ops[..n - 1]);
      RunQuiet(opts, left, right, tokenMatcher, true, ops[..n - 1]);
      var st := Run(opts, left, right, tokenMatcher, true, ops[..n - 1]);
      assert ShapeOk(op, |left|, |right|);
      if op.tag == Equal {
        EqualStepHunks(opts, left, right, st, op);
      } else {
        ChangeStepHunks(opts, left, right, tokenMatcher, st, op);
      }
    }
  }

  lemma FinalHunksExact(opts: TextCompareOptions, left: seq<string>, right: seq<string>,
                        tokenMatcher: Matcher, ops: seq<Opcode>)
    requires OpsChain(ops, |left|, |right|)
    ensures forall h :: h in FinalHunks(Run(opts, left, right, tokenMatcher, true, ops)) ==> HunkExact(h, left, right)
  {
    RunHunksExact(opts, left, right, tokenMatcher, ops);
    var st := Run(opts, left, right, tokenMatcher, true, ops);
    if st.inHunk && st.current != [] {
      CreateHunkExact(st.current, left, right, st.startLeft, EndLeft(ops), st.startRight, EndRight(ops));
    }
  }

  /** The opcodes difflib gives for `a b` against `a c`. */
  const ExampleOps := [Opcode(Equal, 0, 1, 0, 1), Opcode(Replace, 1, 2, 1, 2)]

  /** The loop over `ExampleOps`: the context line `a` is buffered, then the replace opens the hunk. */
  lemma ExampleRun(opts: TextCompareOptions, tokenMatcher: Matcher, countContext: bool)
    requires opts.contextLines == 3
    ensures var st := Run(opts, ["a", "b"], ["a", "c"], tokenMatcher, countContext, ExampleOps);
      st.current == st.diffLines && st.inHunk && st.hunks == []
      && st.startLeft == (if countContext then 0 else 1) && st.startRight == (if countContext then 0 else 1)
  {
    var left, right := ["a", "b"], ["a", "c"];
    var ops := ExampleOps;
    assert ops[..1] == [ops[0]] && ops[..1][..0] == [];
    var eq := CreateEqualLines(left, 0, 1, 0);
    assert |eq| == 1;
    assert SliceFrom(eq, -3) == eq;
    var st1 := Run(opts, left, right, tokenMatcher, countContext, ops[..1]);
    assert Run(opts, left, right, tokenMatcher, countContext, ops[..1][..0]) == Initial;
    assert st1 == Step(opts, left, right, tokenMatcher, countContext, Initial, ops[0]);
    assert st1 == EqualStep(opts, Initial, eq);
    assert [] + eq == eq;
    assert st1.diffLines == eq && st1.buffer == eq && !st1.inHunk && st1.current == [] && st1.hunks == [];
  }

  /**
   * As written, the hunk start ignores the leading context the hunk holds:
   * comparing `a b` with `a c` gives one hunk holding the context line `a`
   * and the changed pair, whose header says `@@ -2,2 +2,2 @@`, i.e. lines 2
   * and 3 of a two-line file. Counting the context, the header is
   * `@@ -1,2 +1,2 @@`.
   */
  lemma HunkStartIgnoresContext(opts: TextCompareOptions, tokenMatcher: Matcher)
    requires opts.contextLines == 3
    ensures var left, right := ["a", "b"], ["a", "c"];
      var asWritten := FinalHunks(Run(opts, left, right, tokenMatcher, false, ExampleOps));
      var counted := FinalHunks(Run(opts, left, right, tokenMatcher, true, ExampleOps));
      OpcodesValid(ExampleOps, left, right)
      && |asWritten| == 1 && asWritten[0].leftStart == 2 && asWritten[0].leftCount == 2
      && asWritten[0].rightStart == 2 && asWritten[0].rightCount == 2
      && !HunkExact(asWritten[0], left, right)
      && |counted| == 1 && counted[0].leftStart == 1 && counted[0].leftCount == 2
      && counted[0].rightStart == 1 && counted[0].rightCount == 2
  {
    var left, right := ["a", "b"], ["a", "c"];
    assert left[0..1] == right[0..1];
    assert OpcodesValid(ExampleOps, left, right);
    OpcodesChain(ExampleOps, left, right);
    ExampleRun(opts, tokenMatcher, false);
    ExampleRun(opts, tokenMatcher, true);
    RunSides(opts, left, right, tokenMatcher, false, ExampleOps);
    RunSides(opts, left, right, tokenMatcher, true, ExampleOps);
  }

  /** A hunk with both starts moved `d` lines earlier. */
  function Unshift(h: DiffHunk, d: int): DiffHunk
  {
    h.(leftStart := h.leftStart - d, rightStart := h.rightStart - d)
  }

  /** `a` is the hunk `t` with both starts moved later by the same number of lines. */
  predicate ShiftedHunk(a: DiffHunk, t: DiffHunk)
  {
    a.leftStart - t.leftStart >= 0 && t == Unshift(a, a.leftStart - t.leftStart)
  }

  /** Two loop states that agree except that the hunk starts of `a` lie later, by the same amount on both sides. */
  ghost predicate ShiftedBuild(a: Build, t: Build)
  {
    a.diffLines == t.diffLines && a.linePairs == t.linePairs && a.current == t.current
    && a.inHunk == t.inHunk && a.buffer == t.buffer && |a.hunks| == |t.hunks|
    && (forall k :: 0 <= k < |a.hunks| ==> ShiftedHunk(a.hunks[k], t.hunks[k]))
    && a.startLeft - t.startLeft == a.startRight - t.startRight >= 0
  }

  lemma ShiftedCreateHunk(lines: seq<DiffLine>, a: Build, t: Build)
    requires a.startLeft - t.startLeft == a.startRight - t.startRight >= 0
    ensures ShiftedHunk(CreateHunk(lines, a.startLeft, a.startRight), CreateHunk(lines, t.startLeft, t.startRight))
  {
  }

  lemma ShiftedHunksAppend(xs: seq<DiffHunk>, ys: seq<DiffHunk>, x: DiffHunk, y: DiffHunk)
    requires |xs| == |ys| && forall k :: 0 <= k < |xs| ==> ShiftedHunk(xs[k], ys[k])
    requires ShiftedHunk(x, y)
    ensures |xs + [x]| == |ys + [y]| && forall k :: 0 <= k < |xs + [x]| ==> ShiftedHunk((xs + [x])[k], (ys + [y])[k])
  {
  }

  /** One opcode keeps the as-written state and the context-counting state shifted. */
  lemma ShiftedStep(opts: TextCompareOptions, left: seq<string>, right: seq<string>, tokenMatcher: Matcher,
                    a: Build, t: Build, op: Opcode)
    requires 0 <= op.i1 <= op.i2 <= |left| && 0 <= op.j1 <= op.j2 <= |right|
    requires ShiftedBuild(a, t)
    ensures ShiftedBuild(Step(opts, left, right, tokenMatcher, false, a, op),
                         Step(opts, left, right, tokenMatcher, true, t, op))
  {
    if op.tag == Equal {
      var eq := CreateEqualLines(left, op.i1, op.i2, op.j1);
      if a.inHunk && |eq| > opts.contextLines * 2 {
        var cur := a.current + SliceTo(eq, opts.contextLines);
        ShiftedCreateHunk(cur, a, t);
        ShiftedHunksAppend(a.hunks, t.hunks, CreateHunk(cur, a.startLeft, a.startRight),
                           CreateHunk(cur, t.startLeft, t.startRight));
      }
    }
  }

  /**
   * As written, the loop differs from the one counting the leading context
   * only in its hunk starts, which lie later by the same number of lines on
   * both sides.
   */
  lemma {:induction false} RunShifted(opts: TextCompareOptions, left: seq<string>, right: seq<string>,
                                      tokenMatcher: Matcher, ops: seq<Opcode>)
    requires AllShapeOk(ops, |left|, |right|)
    ensures ShiftedBuild(Run(opts, left, right, tokenMatcher, false, ops), Run(opts, left, right, tokenMatcher, true, ops))
    decreases |ops|
  {
    if ops != [] {
      var n := |ops|;
      assert AllShapeOk(ops[..n - 1], |left|, |right|);
      RunShifted(opts, left, right, tokenMatcher, ops[..n - 1]);
      assert ShapeOk(ops[n - 1], |left|, |right|);
      ShiftedStep(opts, left, right, tokenMatcher, Run(opts, left, right, tokenMatcher, false, ops[..n - 1]),
                  Run(opts, left, right, tokenMatcher, true, ops[..n - 1]), ops[n - 1]);
    }
  }

  /** The hunks after the loop, as written, are the context-counting hunks with both starts shifted alike. */
  lemma FinalHunksShifted(a: Build, t: Build)
    requires ShiftedBuild(a, t)
    ensures |FinalHunks(a)| == |FinalHunks(t)|
    ensures forall k :: 0 <= k < |FinalHunks(a)| ==> ShiftedHunk(FinalHunks(a)[k], FinalHunks(t)[k])
  {
    if a.inHunk && a.current != [] {
      ShiftedCreateHunk(a.current, a, t);
      ShiftedHunksAppend(a.hunks, t.hunks, CreateHunk(a.current, a.startLeft, a.startRight),
                         CreateHunk(t.current, t.startLeft, t.startRight));
    }
  }

  /**
   * As written, every hunk's counts are exact and its lines are consecutive
   * lines of both sides; its header starts are those lines' starts moved
   * later by one shared amount, the number of leading context lines.
   */
  lemma AsWrittenHunksShifted(opts: TextCompareOptions, left: seq<string>, right: seq<string>,
                              tokenMatcher: Matcher, ops: seq<Opcode>)
    requires OpsChain(ops, |left|, |right|)
    ensures forall h :: h in FinalHunks(Run(opts, left, right, tokenMatcher, false, ops)) ==>
      exists d: nat :: HunkExact(Unshift(h, d), left, right)
  {
    var a, t := Run(opts, left, right, tokenMatcher, false, ops), Run(opts, left, right, tokenMatcher, true, ops);
    RunShifted(opts, left, right, tokenMatcher, ops);
    FinalHunksShifted(a, t);
    FinalHunksExact(opts, left, right, tokenMatcher, ops);
    forall h | h in FinalHunks(a) ensures exists d: nat :: HunkExact(Unshift(h, d), left, right) {
      var k :| 0 <= k < |FinalHunks(a)| && FinalHunks(a)[k] == h;
      var d: nat := h.leftStart - FinalHunks(t)[k].leftStart;
      assert Unshift(h, d) == FinalHunks(t)[k];
      assert FinalHunks(t)[k] in FinalHunks(t);
    }
  }

  /**
   * The loop of `compare` over the opcodes, as written: the diff lines show
   * both sides in full, there is no hunk exactly when every opcode is `equal`,
   * and every hunk shows consecutive lines whose counts its header gives, its
   * starts moved past the leading context.
   */
  method BuildDiff(opts: TextCompareOptions, left: seq<string>, right: seq<string>, ops: seq<Opcode>,
                   tokenMatcher: Matcher)
    returns (diffLines: seq<DiffLine>, linePairs: seq<LinePair>, hunks: seq<DiffHunk>)
    requires OpsChain(ops, |left|, |right|) && EndLeft(ops) == |left| && EndRight(ops) == |right|
    ensures var st := Run(opts, left, right, tokenMatcher, false, ops);
      diffLines == st.diffLines && linePairs == st.linePairs && hunks == FinalHunks(st)
    ensures LeftSide(diffLines) == Numbered(left, 0, |left|) && RightNums(diffLines) == Counting(0, |right|)
    ensures hunks == [] <==> AllEqual(ops)
    ensures forall h :: h in hunks ==> exists d: nat :: HunkExact(Unshift(h, d), left, right)
  {
    var current, hunkStartLeft, hunkStartRight, inHunk, contextBuffer;
    diffLines, linePairs, hunks, current, hunkStartLeft, hunkStartRight, inHunk, contextBuffer :=
      BuildLoop(opts, left, right, ops, tokenMatcher);
    if inHunk && current != [] {
      hunks := hunks + [CreateHunk(current, hunkStartLeft, hunkStartRight)];
    }
    RunSides(opts, left, right, tokenMatcher, false, ops);
    NoHunksIffAllEqual(opts, left, right, tokenMatcher, false, ops);
    AsWrittenHunksShifted(opts, left, right, tokenMatcher, ops);
  }

  /** `EqualStep` field by field, in the shape the loop assigns it. */
  lemma EqualStepShape(opts: TextCompareOptions, st: Build, eq: seq<DiffLine>)
    ensures var c := opts.contextLines;
      var seen := st.diffLines + eq;
      var paired := st.linePairs + UnchangedPairs(eq);
      EqualStep(opts, st, eq) ==
        if st.inHunk then
          if |eq| > c * 2 then
            Build(seen, paired, st.hunks + [CreateHunk(st.current + SliceTo(eq, c), st.startLeft, st.startRight)],
                  [], st.startLeft, st.startRight, false, SliceFrom(eq, -c))
          else Build(seen, paired, st.hunks, st.current + SliceTo(eq, c) + SliceFrom(eq, c),
                     st.startLeft, st.startRight, true, st.buffer)
        else Build(seen, paired, st.hunks, st.current, st.startLeft, st.startRight, false,
                   if eq != [] then SliceFrom(eq, -c) else [])
  {
  }

  /** `Step` on a change opcode, field by field, in the shape the loop assigns it. */
  lemma ChangeStepShape(opts: TextCompareOptions, left: seq<string>, right: seq<string>, tokenMatcher: Matcher,
                        st: Build, op: Opcode)
    requires 0 <= op.i1 <= op.i2 <= |left| && 0 <= op.j1 <= op.j2 <= |right|
    requires op.tag != Equal
    ensures var ch := ChangeOutput(opts, left, right, op, tokenMatcher);
      Step(opts, left, right, tokenMatcher, false, st, op) ==
        if st.inHunk then
          Build(st.diffLines + ch.0, st.linePairs + ch.1, st.hunks, st.current + ch.0,
                st.startLeft, st.startRight, true, st.buffer)
        else Build(st.diffLines + ch.0, st.linePairs + ch.1, st.hunks, st.current + st.buffer + ch.0,
                   op.i1, op.j1, true, [])
  {
  }

  /** The loop of `compare` over the opcodes, leaving the last hunk open. */
  method BuildLoop(opts: TextCompareOptions, left: seq<string>, right: seq<string>, ops: seq<Opcode>,
                   tokenMatcher: Matcher)
    returns (diffLines: seq<DiffLine>, linePairs: seq<LinePair>, hunks: seq<DiffHunk>, current: seq<DiffLine>,
             hunkStartLeft: int, hunkStartRight: int, inHunk: bool, contextBuffer: seq<DiffLine>)
    requires AllShapeOk(ops, |left|, |right|)
    ensures Build(diffLines, linePairs, hunks, current, hunkStartLeft, hunkStartRight, inHunk, contextBuffer)
      == Run(opts, left, right, tokenMatcher, false, ops)
  {
    diffLines, linePairs, hunks := [], [], [];
    current := [];
    hunkStartLeft, hunkStartRight := 0, 0;
    inHunk := false;
    contextBuffer := [];
    var k := 0;
    while k < |ops|
      invariant 0 <= k <= |ops|
      invariant Build(diffLines, linePairs, hunks, current, hunkStartLeft, hunkStartRight, inHunk, contextBuffer)
        == Run(opts, left, right, tokenMatcher, false, ops[..k])
    {
      var op := ops[k];
      assert ShapeOk(op, |left|, |right|);
      assert ops[..k + 1][..k] == ops[..k];
      var before := Build(diffLines, linePairs, hunks, current, hunkStartLeft, hunkStartRight, inHunk, contextBuffer);
      assert Run(opts, left, right, tokenMatcher, false, ops[..k + 1])
        == Step(opts, left, right, tokenMatcher, false, before, op);
      var after;
      if op.tag == Equal {
        var equalLines := CreateEqualLines(left, op.i1, op.i2, op.j1);
        after := EqualBranch(opts, before, equalLines);
      } else {
        after := ChangeBranch(opts, left, right, tokenMatcher, before, op);
      }
      diffLines, linePairs, hunks, current := after.diffLines, after.linePairs, after.hunks, after.current;
      hunkStartLeft, hunkStartRight, inHunk, contextBuffer := after.startLeft, after.startRight, after.inHunk, after.buffer;
      k := k + 1;
    }
    assert ops[..|ops|] == ops;
  }

  /** The loop body of `compare` for an `equal` opcode. */
  method EqualBranch(opts: TextCompareOptions, st: Build, equalLines: seq<DiffLine>) returns (r: Build)
    ensures r == EqualStep(opts, st, equalLines)
  {
    EqualStepShape(opts, st, equalLines);
    var c := opts.contextLines;
    var hunks, current, inHunk, contextBuffer := st.hunks, st.current, st.inHunk, st.buffer;
    if inHunk {
      current := current + SliceTo(equalLines, c);
      if |equalLines| > c * 2 {
        hunks := hunks + [CreateHunk(current, st.startLeft, st.startRight)];
        current := [];
        inHunk := false;
        contextBuffer := SliceFrom(equalLines, -c);
      } else {
        current := current + SliceFrom(equalLines, c);
      }
    } else {
      contextBuffer := if equalLines != [] then SliceFrom(equalLines, -c) else [];
    }
    r := Build(st.diffLines + equalLines, st.linePairs + UnchangedPairs(equalLines), hunks, current,
               st.startLeft, st.startRight, inHunk, contextBuffer);
  }

  /** The loop body of `compare` for a change opcode: open a hunk if none is open, then add the changed lines. */
  method ChangeBranch(opts: TextCompareOptions, left: seq<string>, right: seq<string>, tokenMatcher: Matcher,
                      st: Build, op: Opcode) returns (r: Build)
    requires 0 <= op.i1 <= op.i2 <= |left| && 0 <= op.j1 <= op.j2 <= |right|
    requires op.tag != Equal
    ensures r == Step(opts, left, right, tokenMatcher, false, st, op)
  {
    ChangeStepShape(opts, left, right, tokenMatcher, st, op);
    var current, hunkStartLeft, hunkStartRight, inHunk, contextBuffer :=
      st.current, st.startLeft, st.startRight, st.inHunk, st.buffer;
    if !inHunk {
      inHunk := true;
      hunkStartLeft := op.i1;
      hunkStartRight := op.j1;
      current := current + contextBuffer;
      contextBuffer := [];
    }
    var change := ChangeOutput(opts, left, right, op, tokenMatcher);
    r := Build(st.diffLines + change.0, st.linePairs + change.1, st.hunks, current + change.0,
               hunkStartLeft, hunkStartRight, inHunk, contextBuffer);
  }

  // ---------------------------------------------------------------- _get_opcodes and compare

  /**
   * difflib's matchers as parameters: `plain` is `SequenceMatcher(None, ...)`,
   * `myers` the configured matcher with the junk filter and autojunk, `minimal`
   * the same with autojunk off.
   */
  datatype Matchers = Matchers(plain: Matcher, myers: Matcher, minimal: Matcher)

  ghost predicate MatchersValid(m: Matchers)
  {
    MatcherValid(m.plain) && MatcherValid(m.myers) && MatcherValid(m.minimal)
  }

  /** `_get_opcodes`: the configured algorithm's opcodes, which always describe `left` against `right`. */
  method GetOpcodes(opts: TextCompareOptions, m: Matchers, left: seq<string>, right: seq<string>)
    returns (ops: seq<Opcode>)
    requires MatchersValid(m)
    ensures OpcodesValid(ops, left, right)
    ensures opts.algorithm == Myers ==> ops == m.myers(left, right)
    ensures opts.algorithm == Minimal ==> ops == m.minimal(left, right)
    ensures opts.algorithm == Patience ==> exists anchors :: (ops == AnchorOps(left, right, m.plain, anchors)
      && LongestChain(CommonUnique(left, right, |left|), anchors))
    ensures opts.algorithm == Histogram && AnchorLineSet(left, right) == {} ==> ops == m.plain(left, right)
    ensures opts.algorithm == Histogram && AnchorLineSet(left, right) != {} ==> exists anchors ::
      (ops == AnchorOps(left, right, m.plain, anchors) && LongestChain(HistogramCandidates(left, right, |left|), anchors))
  {
    match opts.algorithm
    case Patience =>
      ops := PatienceDiff(left, right, m.plain);
    case Histogram =>
      ops := HistogramDiff(left, right, m.plain);
    case Minimal =>
      ops := m.minimal(left, right);
      assert MatcherGives(m.minimal, left, right);
    case Myers =>
      ops := m.myers(left, right);
      assert MatcherGives(m.myers, left, right);
  }

  /** The lines `compare` works on: the blank lines are dropped when they are ignored. */
  function ShownLines(opts: TextCompareOptions, lines: seq<string>): seq<string>
  {
    if opts.ignoreBlankLines then NonBlankLines(lines) else lines
  }

  /** The normalised lines the matcher compares. */
  function NormalizeAll(opts: TextCompareOptions, lines: seq<string>): (r: seq<string>)
    ensures |r| == |lines| && forall i :: 0 <= i < |r| ==> r[i] == NormalizeLine(opts, lines[i])
  {
    seq(|lines|, i requires 0 <= i < |lines| => NormalizeLine(opts, lines[i]))
  }

  /**
   * `compare`: the diff lines show each shown side in full and in order, every
   * hunk shows consecutive lines whose counts its header gives (its starts
   * moved past the leading context, as written), the result is identical
   * exactly when there is no hunk, and then both sides normalise to the same
   * lines.
   */
  method Compare(opts: TextCompareOptions, m: Matchers, leftLines: seq<string>, rightLines: seq<string>,
                 leftLabel: string, rightLabel: string)
    returns (r: DiffResult)
    requires MatchersValid(m)
    ensures r.leftPath == leftLabel && r.rightPath == rightLabel && !r.isBinary && r.error.None?
    ensures var left, right := ShownLines(opts, leftLines), ShownLines(opts, rightLines);
      LeftSide(r.lines) == Numbered(left, 0, |left|) && RightNums(r.lines) == Counting(0, |right|)
      && (forall h :: h in r.hunks ==> exists d: nat :: HunkExact(Unshift(h, d), left, right))
      && (r.isIdentical ==> NormalizeAll(opts, left) == NormalizeAll(opts, right))
    ensures r.isIdentical <==> r.hunks == []
    ensures r.statistics == Some(CalculateStatistics(r.lines, |leftLines|, |rightLines|))
  {
    var left, right := leftLines, rightLines;
    if opts.ignoreBlankLines {
      var leftMap, rightMap;
      left, leftMap := FilterBlankLines(left);
      right, rightMap := FilterBlankLines(right);
    }
    var leftNormalized := NormalizeAll(opts, left);
    var rightNormalized := NormalizeAll(opts, right);
    var opcodes := GetOpcodes(opts, m, leftNormalized, rightNormalized);
    OpcodesChain(opcodes, leftNormalized, rightNormalized);
    var diffLines, linePairs, hunks := BuildDiff(opts, left, right, opcodes, m.plain);
    var stats := CalculateStatistics(diffLines, |leftLines|, |rightLines|);
    if hunks == [] {
      AllEqualSame(opcodes, leftNormalized, rightNormalized);
    }
    r := DiffResult(leftLabel, rightLabel, diffLines, hunks, linePairs, |hunks| == 0, false, Some(stats), None);
  }
}
