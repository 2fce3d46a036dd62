/**
 * The diff text views: `DiffTextEdit`, one side of a side-by-side
 * comparison with its line types, line numbers and search matches, and
 * `UnifiedDiffWidget`, which numbers the lines of a unified diff and moves
 * between its hunks. The per-line dicts of the source are keyed by the
 * line indices 0 .. n-1 and are modelled as sequences over those indices;
 * the sparse intraline dict stays a map. Colours, painting and the Qt
 * document are not modelled.
 */
module DiffTextEdit {
  import opened Wrappers
  import opened TextUtil
  import opened Models

  /** The (left, right) line numbers shown beside one line. */
  datatype LineNumbers = LineNumbers(left: Option<int>, right: Option<int>)

  /** A search match as the document reports it: `[start, end)` character positions. */
  datatype Span = Span(start: int, end: int)

  // ---------------------------------------------------------------- set_line_pairs

  /** One displayed line: its type, its numbers and its text. */
  datatype ShownLine = ShownLine(lineType: DiffLineType, numbers: LineNumbers, text: string)

  /** The line of a pair on the chosen side: `left_line` when `side == 'left'`, else `right_line`. */
  function SideOf(pair: LinePair, side: string): Option<DiffLine>
  {
    if side == "left" then pair.left else pair.right
  }

  /** The line a pair shows: the side's own line, or an EMPTY filler without numbers or text. */
  function Shown(pair: LinePair, side: string): ShownLine
  {
    match SideOf(pair, side)
    case Some(line) => ShownLine(line.lineType, LineNumbers(line.leftLineNum, line.rightLineNum), line.DisplayContent())
    case None => ShownLine(DiffLineType.Empty, LineNumbers(None, None), "")
  }

  /** The texts of the shown lines, one per pair. */
  function ShownTexts(pairs: seq<LinePair>, side: string): (r: seq<string>)
    ensures |r| == |pairs|
  {
    seq(|pairs|, k requires 0 <= k < |pairs| => Shown(pairs[k], side).text)
  }

  /** The intraline ranges kept: those of shown lines whose list is not empty, by line index. */
  predicate KeepsIntraline(pairs: seq<LinePair>, side: string, k: int)
  {
    0 <= k < |pairs| && SideOf(pairs[k], side).Some? && SideOf(pairs[k], side).value.HasIntralineDiff()
  }

  /**
   * The shown lines of a pair list in terms of the pairs: a pair whose side
   * is missing is an EMPTY line with no numbers and no text; any other pair
   * shows its side's type, numbers and text without the line ending. The
   * document has one line per pair when no text holds a line break.
   */
  lemma ShownLines(pairs: seq<LinePair>, side: string)
    ensures forall k :: 0 <= k < |pairs| && SideOf(pairs[k], side).None? ==>
      Shown(pairs[k], side) == ShownLine(DiffLineType.Empty, LineNumbers(None, None), [])
    ensures forall k :: 0 <= k < |pairs| && SideOf(pairs[k], side).Some? ==>
      var line := SideOf(pairs[k], side).value;
      Shown(pairs[k], side).lineType == line.lineType
      && Shown(pairs[k], side).numbers == LineNumbers(line.leftLineNum, line.rightLineNum)
      && Shown(pairs[k], side).text == RStripChars(line.content, LineEndChars)
    ensures pairs != [] && (forall k :: 0 <= k < |pairs| ==> '\n' !in ShownTexts(pairs, side)[k]) ==>
      SplitOn(Join(ShownTexts(pairs, side), "\n"), '\n') == ShownTexts(pairs, side)
  {
    if pairs != [] && (forall k :: 0 <= k < |pairs| ==> '\n' !in ShownTexts(pairs, side)[k]) {
      JoinThenSplit(ShownTexts(pairs, side), '\n');
    }
  }

  // ---------------------------------------------------------------- search navigation

  /** From a valid match, stepping back after stepping forward, or forward after back, returns to it. */
  lemma StepsUndo(i: int, n: int)
    requires 0 <= i < n
    ensures ((i + 1) % n - 1) % n == i
    ensures ((i - 1) % n + 1) % n == i
  {
    if i + 1 < n {
      ModInRange(i + 1, n);
      ModInRange(i, n);
    } else {
      ModSelf(n);
      ModMinusOne(n);
    }
    if i >= 1 {
      ModInRange(i - 1, n);
      ModInRange(i, n);
    } else {
      ModMinusOne(n);
      ModSelf(n);
    }
  }

  lemma ModInRange(a: int, n: int)
    requires 0 <= a < n
    ensures a % n == a
  {
  }

  lemma ModSelf(n: int)
    requires n > 0
    ensures n % n == 0
  {
  }

  lemma ModMinusOne(n: int)
    requires n > 0
    ensures (-1) % n == n - 1
  {
  }

  /** The loop of `set_line_pairs`: the type, numbers, intraline ranges and text of each pair's line. */
  method ScanPairs(pairs: seq<LinePair>, side: string)
    returns (types: seq<DiffLineType>, numbers: seq<LineNumbers>, ranges: map<int, seq<IntralineDiff>>, contents: seq<string>)
    ensures |types| == |pairs| && |numbers| == |pairs|
    ensures forall k :: 0 <= k < |pairs| ==>
      types[k] == Shown(pairs[k], side).lineType && numbers[k] == Shown(pairs[k], side).numbers
    ensures forall k :: k in ranges <==> KeepsIntraline(pairs, side, k)
    ensures forall k :: KeepsIntraline(pairs, side, k) ==> k in ranges && ranges[k] == SideOf(pairs[k], side).value.intraline.value
    ensures contents == ShownTexts(pairs, side)
  {
    types, numbers, ranges, contents := [], [], map[], [];
    var i := 0;
    while i < |pairs|
      invariant 0 <= i <= |pairs|
      invariant |types| == i && |numbers| == i && |contents| == i
      invariant forall k :: 0 <= k < i ==>
        types[k] == Shown(pairs[k], side).lineType && numbers[k] == Shown(pairs[k], side).numbers
        && contents[k] == Shown(pairs[k], side).text
      invariant forall k :: k in ranges <==> k < i && KeepsIntraline(pairs, side, k)
      invariant forall k :: KeepsIntraline(pairs, side, k) && k < i ==> ranges[k] == SideOf(pairs[k], side).value.intraline.value
    {
      var line := if side == "left" then pairs[i].left else pairs[i].right;
      if line.Some? {
        var l := line.value;
        types := types + [l.lineType];
        if l.intraline.Some? && |l.intraline.value| > 0 {
          ranges := ranges[i := l.intraline.value];
        }
        numbers := numbers + [LineNumbers(l.leftLineNum, l.rightLineNum)];
        contents := contents + [l.DisplayContent()];
      } else {
        types := types + [DiffLineType.Empty];
        numbers := numbers + [LineNumbers(None, None)];
        contents := contents + [""];
      }
      i := i + 1;
    }
  }

  // ---------------------------------------------------------------- DiffTextEdit

  /** One side of a comparison: its lines' data, its text and its search state. */
  class DiffTextView {
    var lineTypes: seq<DiffLineType>
    var lineNumbers: seq<LineNumbers>
    var intraline: map<int, seq<IntralineDiff>>
    var text: string
    var searchMatches: seq<Span>
    var currentMatchIndex: int
    /** The match the cursor selects, if any. */
    var selection: Option<Span>

    constructor ()
      ensures lineTypes == [] && lineNumbers == [] && intraline == map[] && text == []
      ensures searchMatches == [] && currentMatchIndex == -1 && selection == None
    {
      lineTypes, lineNumbers, intraline, text := [], [], map[], [];
      searchMatches, currentMatchIndex, selection := [], -1, None;
    }

    /**
     * `set_line_pairs`: one line per pair, shown from the chosen side. Setting
     * the plain text drops the cursor's selection; the found matches and the
     * current index stay as they were.
     */
    method SetLinePairs(pairs: seq<LinePair>, side: string)
      modifies this
      ensures |lineTypes| == |pairs| && |lineNumbers| == |pairs|
      ensures forall k :: 0 <= k < |pairs| ==>
        lineTypes[k] == Shown(pairs[k], side).lineType && lineNumbers[k] == Shown(pairs[k], side).numbers
      ensures forall k :: k in intraline <==> KeepsIntraline(pairs, side, k)
      ensures forall k :: KeepsIntraline(pairs, side, k) ==> k in intraline && intraline[k] == SideOf(pairs[k], side).value.intraline.value
      ensures text == Join(ShownTexts(pairs, side), "\n")
      ensures searchMatches == old(searchMatches) && currentMatchIndex == old(currentMatchIndex)
      ensures selection == None
    {
      var types, numbers, ranges, contents := ScanPairs(pairs, side);
      lineTypes, lineNumbers, intraline, text := types, numbers, ranges, Join(contents, "\n");
      selection := None;
    }

    /**
     * `find_text` given the matches the document search finds, in document
     * order: an empty search clears the matches; otherwise the first match,
     * if any, is selected. Answers the number of matches.
     */
    method FindText(search: string, found: seq<Span>) returns (count: int)
      modifies this
      ensures search == [] ==> searchMatches == [] && count == 0 && currentMatchIndex == -1
      ensures search != [] ==> searchMatches == found && count == |found|
      ensures search != [] && found != [] ==> currentMatchIndex == 0 && selection == Some(found[0])
      ensures (search == [] || found == []) ==> currentMatchIndex == -1 && selection == old(selection)
      ensures lineTypes == old(lineTypes) && lineNumbers == old(lineNumbers)
      ensures intraline == old(intraline) && text == old(text)
    {
      searchMatches := [];
      currentMatchIndex := -1;
      if search == [] {
        return 0;
      }
      searchMatches := found;
      if searchMatches != [] {
        currentMatchIndex := 0;
        GotoMatch(0);
      }
      count := |searchMatches|;
    }

    /** `_goto_match`: selects the match at `index` when there is one. */
    method GotoMatch(index: int)
      modifies this`selection
      ensures 0 <= index < |searchMatches| ==> selection == Some(searchMatches[index])
      ensures !(0 <= index < |searchMatches|) ==> selection == old(selection)
    {
      if 0 <= index < |searchMatches| {
        selection := Some(searchMatches[index]);
      }
    }

    /** `find_next`: moves to the following match, from the last back to the first. */
    method FindNext() returns (moved: bool)
      modifies this
      ensures moved <==> searchMatches != []
      ensures moved ==> currentMatchIndex == (old(currentMatchIndex) + 1) % |searchMatches|
      ensures moved ==> 0 <= currentMatchIndex < |searchMatches| && selection == Some(searchMatches[currentMatchIndex])
      ensures !moved ==> currentMatchIndex == old(currentMatchIndex) && selection == old(selection)
      ensures searchMatches == old(searchMatches) && lineTypes == old(lineTypes)
      ensures lineNumbers == old(lineNumbers) && intraline == old(intraline) && text == old(text)
    {
      if searchMatches == [] {
        return false;
      }
      currentMatchIndex := (currentMatchIndex + 1) % |searchMatches|;
      GotoMatch(currentMatchIndex);
      moved := true;
    }

    /** `find_previous`: moves to the preceding match, from the first back to the last. */
    method FindPrevious() returns (moved: bool)
      modifies this
      ensures moved <==> searchMatches != []
      ensures moved ==> currentMatchIndex == (old(currentMatchIndex) - 1) % |searchMatches|
      ensures moved ==> 0 <= currentMatchIndex < |searchMatches| && selection == Some(searchMatches[currentMatchIndex])
      ensures !moved ==> currentMatchIndex == old(currentMatchIndex) && selection == old(selection)
      ensures searchMatches == old(searchMatches) && lineTypes == old(lineTypes)
      ensures lineNumbers == old(lineNumbers) && intraline == old(intraline) && text == old(text)
    {
      if searchMatches == [] {
        return false;
      }
      currentMatchIndex := (currentMatchIndex - 1) % |searchMatches|;
      GotoMatch(currentMatchIndex);
      moved := true;
    }
  }

  // ---------------------------------------------------------------- unified diff lines

  predicate IsHunkHeader(line: string) { StartsWith(line, "@@") }
  predicate IsAddedLine(line: string) { StartsWith(line, "+") && !StartsWith(line, "+++") }
  predicate IsRemovedLine(line: string) { StartsWith(line, "-") && !StartsWith(line, "---") }
  predicate IsFileHeader(line: string) { StartsWith(line, "---") || StartsWith(line, "+++") }

  /** The line takes a left number: a removed or a context line. */
  predicate HasLeft(line: string)
  {
    !IsHunkHeader(line) && !IsAddedLine(line) && !IsFileHeader(line)
  }

  /** The line takes a right number: an added or a context line. */
  predicate HasRight(line: string)
  {
    !IsHunkHeader(line) && !IsRemovedLine(line) && !IsFileHeader(line)
  }

  /** `re.match(r'@@ -(\d+)', line)`: the digits right after a leading `@@ -`. */
  function HeaderLeft(line: string): Option<nat>
  {
    if |line| > 4 && line[..4] == "@@ -" && IsDigit(line[4]) then Some(DigitsValue(LeadingDigits(line[4..])))
    else None
  }

  /** `re.search(r'\+(\d+)', line)` from position `k`: the digits after the first `+` that has any. */
  function PlusNumberFrom(line: string, k: nat): Option<nat>
    decreases |line| - k
  {
    if k + 1 >= |line| then None
    else if line[k] == '+' && IsDigit(line[k + 1]) then Some(DigitsValue(LeadingDigits(line[k + 1..])))
    else PlusNumberFrom(line, k + 1)
  }

  function HeaderRight(line: string): Option<nat>
  {
    PlusNumberFrom(line, 0)
  }

  /** The `left_num` and `right_num` counters. */
  datatype Counters = Counters(left: int, right: int)

  /** What one line of a unified diff gets, and the counters after it. */
  datatype Step = Step(lineType: DiffLineType, numbers: LineNumbers, next: Counters)

  /** The branches of `set_unified_diff` for one line, from the counters before it. */
  function StepLine(line: string, c: Counters): Step
  {
    if IsHunkHeader(line) then
      var left := if HeaderLeft(line).Some? then HeaderLeft(line).value else c.left;
      var right := if HeaderRight(line).Some? then HeaderRight(line).value else c.right;
      Step(DiffLineType.Context, LineNumbers(None, None), Counters(left, right))
    else if IsAddedLine(line) then
      Step(DiffLineType.Added, LineNumbers(None, Some(c.right)), c.(right := c.right + 1))
    else if IsRemovedLine(line) then
      Step(DiffLineType.Removed, LineNumbers(Some(c.left), None), c.(left := c.left + 1))
    else if IsFileHeader(line) then
      Step(DiffLineType.Context, LineNumbers(None, None), c)
    else
      Step(DiffLineType.Unchanged, LineNumbers(Some(c.left), Some(c.right)), Counters(c.left + 1, c.right + 1))
  }

  /** The counters before line `i`; both start at 0. */
  function CountersAt(lines: seq<string>, i: nat): Counters
    requires i <= |lines|
  {
    if i == 0 then Counters(0, 0) else StepLine(lines[i - 1], CountersAt(lines, i - 1)).next
  }

  function StepAt(lines: seq<string>, i: nat): Step
    requires i < |lines|
  {
    StepLine(lines[i], CountersAt(lines, i))
  }

  /** The indices of the hunk headers among the first `n` lines. */
  function HunksIn(lines: seq<string>, n: nat): seq<int>
    requires n <= |lines|
  {
    if n == 0 then [] else HunksIn(lines, n - 1) + (if IsHunkHeader(lines[n - 1]) then [n - 1] else [])
  }

  /** The number of lines in `[lo, hi)` that take a left number. */
  function LeftNumbered(lines: seq<string>, lo: nat, hi: nat): nat
    requires lo <= hi <= |lines|
    decreases hi
  {
    if lo == hi then 0 else LeftNumbered(lines, lo, hi - 1) + (if HasLeft(lines[hi - 1]) then 1 else 0)
  }

  /** The number of lines in `[lo, hi)` that take a right number. */
  function RightNumbered(lines: seq<string>, lo: nat, hi: nat): nat
    requires lo <= hi <= |lines|
    decreases hi
  {
    if lo == hi then 0 else RightNumbered(lines, lo, hi - 1) + (if HasRight(lines[hi - 1]) then 1 else 0)
  }

  /**
   * A line takes a left number exactly when it is a removed or context line,
   * and then takes the current left counter, which moves on by one; lines
   * without a left number leave the counter alone, except hunk headers,
   * which reload it from their `-` number. Likewise on the right.
   */
  lemma StepLineProps(line: string, c: Counters)
    ensures var s := StepLine(line, c);
      && (s.numbers.left.Some? <==> HasLeft(line))
      && (s.numbers.right.Some? <==> HasRight(line))
      && (HasLeft(line) ==> s.numbers.left.value == c.left)
      && (HasRight(line) ==> s.numbers.right.value == c.right)
      && (!IsHunkHeader(line) ==> s.next.left == c.left + (if HasLeft(line) then 1 else 0))
      && (!IsHunkHeader(line) ==> s.next.right == c.right + (if HasRight(line) then 1 else 0))
      && (IsHunkHeader(line) ==> s.lineType == DiffLineType.Context)
      && (IsHunkHeader(line) && HeaderLeft(line).Some? ==> s.next.left == HeaderLeft(line).value)
      && (IsHunkHeader(line) && HeaderRight(line).Some? ==> s.next.right == HeaderRight(line).value)
  {
  }

  /** Between hunk headers the counters advance by the lines numbered on each side. */
  lemma {:induction false} CounterSpan(lines: seq<string>, lo: nat, hi: nat)
    requires lo <= hi <= |lines|
    requires forall k :: lo <= k < hi ==> !IsHunkHeader(lines[k])
    ensures CountersAt(lines, hi).left == CountersAt(lines, lo).left + LeftNumbered(lines, lo, hi)
    ensures CountersAt(lines, hi).right == CountersAt(lines, lo).right + RightNumbered(lines, lo, hi)
    decreases hi
  {
    if lo < hi {
      CounterSpan(lines, lo, hi - 1);
      StepLineProps(lines[hi - 1], CountersAt(lines, hi - 1));
    }
  }

  /**
   * Inside a hunk whose header reads `@@ -a,… +b,… @@`, the line after the
   * header that follows m left-numbered lines is numbered a + m on the left,
   * and likewise b + m on the right.
   */
  lemma HunkNumbering(lines: seq<string>, h: nat, j: nat)
    requires h < j < |lines| && IsHunkHeader(lines[h])
    requires forall k :: h < k <= j ==> !IsHunkHeader(lines[k])
    ensures HasLeft(lines[j]) && HeaderLeft(lines[h]).Some? ==>
      StepAt(lines, j).numbers.left == Some(HeaderLeft(lines[h]).value + LeftNumbered(lines, h + 1, j))
    ensures HasRight(lines[j]) && HeaderRight(lines[h]).Some? ==>
      StepAt(lines, j).numbers.right == Some(HeaderRight(lines[h]).value + RightNumbered(lines, h + 1, j))
  {
    StepLineProps(lines[h], CountersAt(lines, h));
    CounterSpan(lines, h + 1, j);
    StepLineProps(lines[j], CountersAt(lines, j));
  }

  /** A header as `difflib` writes it, `@@ -a[,n] +b[,m] @@`, reloads the counters with a and b. */
  lemma HeaderNumbers(a: nat, leftRest: string, b: nat, rightRest: string)
    requires leftRest == [] || !IsDigit(leftRest[0])
    requires rightRest == [] || !IsDigit(rightRest[0])
    requires '+' !in leftRest
    ensures HeaderLeft("@@ -" + NatToString(a) + leftRest + " +" + NatToString(b) + rightRest) == Some(a)
    ensures HeaderRight("@@ -" + NatToString(a) + leftRest + " +" + NatToString(b) + rightRest) == Some(b)
  {
    var da, db := NatToString(a), NatToString(b);
    var head, gap := "@@ -" + da, " +";
    var rest := leftRest + gap + db + rightRest;
    assert rest == [] || !IsDigit(rest[0]);
    LeftOfHeader(a, rest);
    AppendAssoc(head, leftRest + gap + db, rightRest);
    AppendAssoc(head, leftRest + gap, db);
    AppendAssoc(head, leftRest, gap);
    var pre := head + leftRest + " ";
    assert '+' !in pre by {
      assert forall q :: 0 <= q < |da| ==> da[q] != '+';
    }
    RightAfter(pre, b, rightRest);
    assert gap == " " + "+";
    AppendAssoc(head + leftRest, " ", "+");
  }

  lemma LeftOfHeader(a: nat, rest: string)
    requires rest == [] || !IsDigit(rest[0])
    ensures HeaderLeft("@@ -" + NatToString(a) + rest) == Some(a)
  {
    var da := NatToString(a);
    var line := "@@ -" + da + rest;
    assert line[..4] == "@@ -" && line[4] == da[0];
    assert line[4..] == da + rest;
    LeadingDigitsOfDigits(da, rest);
    DigitsValueOfNatToString(a);
  }

  lemma RightAfter(pre: string, b: nat, rest: string)
    requires '+' !in pre
    requires rest == [] || !IsDigit(rest[0])
    ensures HeaderRight(pre + "+" + NatToString(b) + rest) == Some(b)
  {
    var db := NatToString(b);
    var line := pre + "+" + db + rest;
    var p := |pre|;
    assert line[p] == '+' && line[p + 1] == db[0];
    assert line[p + 1..] == db + rest;
    LeadingDigitsOfDigits(db, rest);
    DigitsValueOfNatToString(b);
    assert forall q :: 0 <= q < p ==> line[q] == pre[q];
    NoPlusBefore(line, 0, p);
  }

  lemma {:induction false} NoPlusBefore(line: string, k: nat, p: nat)
    requires k <= p && p + 1 < |line| && line[p] == '+' && IsDigit(line[p + 1])
    requires forall q :: k <= q < p ==> line[q] != '+'
    ensures PlusNumberFrom(line, k) == PlusNumberFrom(line, p)
    decreases p - k
  {
    if k < p {
      NoPlusBefore(line, k + 1, p);
    }
  }

  /** The hunk positions are exactly the header lines, in increasing order. */
  lemma {:induction false} HunksInProps(lines: seq<string>, n: nat)
    requires n <= |lines|
    ensures forall k :: 0 <= k < |HunksIn(lines, n)| ==> 0 <= HunksIn(lines, n)[k] < n
    ensures forall k :: 0 < k < |HunksIn(lines, n)| ==> HunksIn(lines, n)[k - 1] < HunksIn(lines, n)[k]
    ensures forall p :: p in HunksIn(lines, n) <==> 0 <= p < n && IsHunkHeader(lines[p])
  {
    if n > 0 {
      HunksInProps(lines, n - 1);
    }
  }

  // ---------------------------------------------------------------- UnifiedDiffWidget

  /** `ps[k]` is the first position after `line`. */
  predicate FirstAbove(ps: seq<int>, line: int, k: int)
  {
    0 <= k < |ps| && ps[k] > line && forall j :: 0 <= j < k ==> ps[j] <= line
  }

  /** `ps[k]` is the last position before `line`. */
  predicate LastBelow(ps: seq<int>, line: int, k: int)
  {
    0 <= k < |ps| && ps[k] < line && forall j :: k < j < |ps| ==> ps[j] >= line
  }

  /** `next_hunk`'s target over the hunk positions of a diff is the nearest header below the cursor line. */
  lemma NextHunkNearest(lines: seq<string>, ps: seq<int>, line: int, k: int)
    requires ps == HunksIn(lines, |lines|) && FirstAbove(ps, line, k)
    ensures 0 <= ps[k] < |lines| && IsHunkHeader(lines[ps[k]])
    ensures forall p :: 0 <= p && line < p < ps[k] ==> !IsHunkHeader(lines[p])
  {
    HunksInProps(lines, |lines|);
    assert ps[k] in ps;
    forall p | 0 <= p && line < p < ps[k] ensures !IsHunkHeader(lines[p]) {
      if IsHunkHeader(lines[p]) {
        var j := PositionOf(ps, p);
        if j >= k {
          IncreasingFrom(ps, k, j);
        }
      }
    }
  }

  /** `previous_hunk`'s target over the hunk positions of a diff is the nearest header above the cursor line. */
  lemma PreviousHunkNearest(lines: seq<string>, ps: seq<int>, line: int, k: int)
    requires ps == HunksIn(lines, |lines|) && LastBelow(ps, line, k)
    ensures 0 <= ps[k] < |lines| && IsHunkHeader(lines[ps[k]])
    ensures forall p :: ps[k] < p < line && p < |lines| ==> !IsHunkHeader(lines[p])
  {
    HunksInProps(lines, |lines|);
    assert ps[k] in ps;
    forall p | ps[k] < p < line && p < |lines| ensures !IsHunkHeader(lines[p]) {
      if IsHunkHeader(lines[p]) {
        var j := PositionOf(ps, p);
        if j <= k {
          IncreasingFrom(ps, j, k);
        }
      }
    }
  }

  /** When `next_hunk` finds no position after the cursor line, no header lies below it. */
  lemma NoHunkBelow(lines: seq<string>, ps: seq<int>, line: int)
    requires ps == HunksIn(lines, |lines|)
    requires forall k :: 0 <= k < |ps| ==> ps[k] <= line
    ensures forall p :: 0 <= p < |lines| && line < p ==> !IsHunkHeader(lines[p])
  {
    HunksInProps(lines, |lines|);
    forall p | 0 <= p < |lines| && line < p ensures !IsHunkHeader(lines[p]) {
      if IsHunkHeader(lines[p]) {
        var j := PositionOf(ps, p);
      }
    }
  }

  /** When `previous_hunk` finds no position before the cursor line, no header lies above it. */
  lemma NoHunkAbove(lines: seq<string>, ps: seq<int>, line: int)
    requires ps == HunksIn(lines, |lines|)
    requires forall k :: 0 <= k < |ps| ==> ps[k] >= line
    ensures forall p :: 0 <= p < |lines| && p < line ==> !IsHunkHeader(lines[p])
  {
    HunksInProps(lines, |lines|);
    forall p | 0 <= p < |lines| && p < line ensures !IsHunkHeader(lines[p]) {
      if IsHunkHeader(lines[p]) {
        var j := PositionOf(ps, p);
      }
    }
  }

  lemma PositionOf(ps: seq<int>, p: int) returns (j: int)
    requires p in ps
    ensures 0 <= j < |ps| && ps[j] == p
  {
    j :| 0 <= j < |ps| && ps[j] == p;
  }

  lemma {:induction false} IncreasingFrom(ps: seq<int>, i: int, j: int)
    requires 0 <= i <= j < |ps|
    requires forall k :: 0 < k < |ps| ==> ps[k - 1] < ps[k]
    ensures ps[i] <= ps[j]
    decreases j - i
  {
    if i < j {
      IncreasingFrom(ps, i, j - 1);
    }
  }

  /** The loop of `set_unified_diff`: steps the two counters through the lines and collects the headers. */
  method NumberLines(diffLines: seq<string>) returns (types: seq<DiffLineType>, numbers: seq<LineNumbers>, hunks: seq<int>)
    ensures |types| == |diffLines| && |numbers| == |diffLines|
    ensures forall i :: 0 <= i < |diffLines| ==>
      types[i] == StepAt(diffLines, i).lineType && numbers[i] == StepAt(diffLines, i).numbers
    ensures hunks == HunksIn(diffLines, |diffLines|)
  {
    types, numbers, hunks := [], [], [];
    var leftNum, rightNum := 0, 0;
    var i := 0;
    while i < |diffLines|
      invariant 0 <= i <= |diffLines|
      invariant |types| == i && |numbers| == i
      invariant Counters(leftNum, rightNum) == CountersAt(diffLines, i)
      invariant forall k :: 0 <= k < i ==>
        types[k] == StepAt(diffLines, k).lineType && numbers[k] == StepAt(diffLines, k).numbers
      invariant hunks == HunksIn(diffLines, i)
    {
      var line := diffLines[i];
      if StartsWith(line, "@@") {
        types := types + [DiffLineType.Context];
        numbers := numbers + [LineNumbers(None, None)];
        hunks := hunks + [i];
        var a := HeaderLeft(line);
        if a.Some? {
          leftNum := a.value;
        }
        var b := HeaderRight(line);
        if b.Some? {
          rightNum := b.value;
        }
      } else if StartsWith(line, "+") && !StartsWith(line, "+++") {
        types := types + [DiffLineType.Added];
        numbers := numbers + [LineNumbers(None, Some(rightNum))];
        rightNum := rightNum + 1;
      } else if StartsWith(line, "-") && !StartsWith(line, "---") {
        types := types + [DiffLineType.Removed];
        numbers := numbers + [LineNumbers(Some(leftNum), None)];
        leftNum := leftNum + 1;
      } else if StartsWith(line, "---") || StartsWith(line, "+++") {
        types := types + [DiffLineType.Context];
        numbers := numbers + [LineNumbers(None, None)];
      } else {
        types := types + [DiffLineType.Unchanged];
        numbers := numbers + [LineNumbers(Some(leftNum), Some(rightNum))];
        leftNum := leftNum + 1;
        rightNum := rightNum + 1;
      }
      i := i + 1;
    }
  }

  /** A unified diff view: its lines' types and numbers, its hunk headers and the cursor line. */
  class UnifiedDiffView {
    var lineTypes: seq<DiffLineType>
    var lineNumbers: seq<LineNumbers>
    var hunkPositions: seq<int>
    /** The block number of the text cursor. */
    var cursorLine: int

    constructor ()
      ensures lineTypes == [] && lineNumbers == [] && hunkPositions == [] && cursorLine == 0
    {
      lineTypes, lineNumbers, hunkPositions, cursorLine := [], [], [], 0;
    }

    /**
     * `set_unified_diff`: numbers the lines of a unified diff while stepping
     * the two counters, and collects the hunk headers. Replacing the text
     * puts the cursor on the first line.
     */
    method SetUnifiedDiff(diffLines: seq<string>)
      modifies this
      ensures |lineTypes| == |diffLines| && |lineNumbers| == |diffLines|
      ensures forall i :: 0 <= i < |diffLines| ==>
        lineTypes[i] == StepAt(diffLines, i).lineType && lineNumbers[i] == StepAt(diffLines, i).numbers
      ensures hunkPositions == HunksIn(diffLines, |diffLines|)
      ensures cursorLine == 0
    {
      var types, numbers, hunks := NumberLines(diffLines);
      lineTypes, lineNumbers, hunkPositions, cursorLine := types, numbers, hunks, 0;
    }

    /** `next_hunk`: moves the cursor to the first hunk header after it, if there is one. */
    method NextHunk() returns (moved: bool)
      modifies this`cursorLine
      ensures moved <==> exists k :: 0 <= k < |hunkPositions| && hunkPositions[k] > old(cursorLine)
      ensures moved ==> exists k :: FirstAbove(hunkPositions, old(cursorLine), k) && cursorLine == hunkPositions[k]
      ensures !moved ==> cursorLine == old(cursorLine)
    {
      var current := cursorLine;
      var k := 0;
      while k < |hunkPositions|
        invariant 0 <= k <= |hunkPositions| && cursorLine == current
        invariant forall j :: 0 <= j < k ==> hunkPositions[j] <= current
      {
        if hunkPositions[k] > current {
          cursorLine := hunkPositions[k];
          assert FirstAbove(hunkPositions, current, k);
          return true;
        }
        k := k + 1;
      }
      moved := false;
    }

    /** `previous_hunk`: moves the cursor to the last hunk header before it, if there is one. */
    method PreviousHunk() returns (moved: bool)
      modifies this`cursorLine
      ensures moved <==> exists k :: 0 <= k < |hunkPositions| && hunkPositions[k] < old(cursorLine)
      ensures moved ==> exists k :: LastBelow(hunkPositions, old(cursorLine), k) && cursorLine == hunkPositions[k]
      ensures !moved ==> cursorLine == old(cursorLine)
    {
      var current := cursorLine;
      var k := |hunkPositions|;
      while k > 0
        invariant 0 <= k <= |hunkPositions| && cursorLine == current
        invariant forall j :: k <= j < |hunkPositions| ==> hunkPositions[j] >= current
      {
        k := k - 1;
        if hunkPositions[k] < current {
          cursorLine := hunkPositions[k];
          assert LastBelow(hunkPositions, current, k);
          return true;
        }
      }
      moved := false;
    }
  }
}
