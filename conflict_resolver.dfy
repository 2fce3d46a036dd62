/**
 * Conflict utilities next to the merge engine: ranking resolution
 * suggestions for a conflict, parsing git-style conflict markers out of a
 * line list, removing them under a resolution, and the automatic merger that
 * resolves whitespace-only and identical conflicts.
 */
module ConflictResolver {
  import opened Wrappers
  import opened TextUtil
  import opened Models
  import opened ThreeWay
  import opened ThreeWayEngine

  // ---------------------------------------------------------------- ConflictAnalyzer

  /** A suggestion; the confidence is in tenths (0.8 is 8). */
  datatype Suggestion = Suggestion(resolution: ConflictResolution, confidence: nat, reason: string,
                                   previewLines: seq<string>)

  function StripAll(lines: seq<string>): (r: seq<string>)
    ensures |r| == |lines| && forall i :: 0 <= i < |r| ==> r[i] == Strip(lines[i])
  {
    seq(|lines|, i requires 0 <= i < |lines| => Strip(lines[i]))
  }

  function RStripAll(lines: seq<string>): (r: seq<string>)
    ensures |r| == |lines| && forall i :: 0 <= i < |r| ==> r[i] == RStrip(lines[i])
  {
    seq(|lines|, i requires 0 <= i < |lines| => RStrip(lines[i]))
  }

  const LeftEmptyReason := "Left side is empty (deletion vs modification)"
  const RightEmptyReason := "Right side is empty (modification vs deletion)"
  const WhitespaceReason := "Difference is whitespace only"
  const RightSupersetReason := "Right side contains all of left plus additions"
  const LeftSupersetReason := "Left side contains all of right plus additions"
  const ReorderReason := "Same lines in different order"

  /** The 0.8 suggestions for a side that is empty while the other is not. */
  function EmptySideSuggestions(l: seq<string>, r: seq<string>): (out: seq<Suggestion>)
    ensures forall x :: x in out ==> x.confidence == 8
  {
    (if l == [] && r != [] then [Suggestion(UseRight, 8, LeftEmptyReason, r)] else [])
    + (if r == [] && l != [] then [Suggestion(UseLeft, 8, RightEmptyReason, l)] else [])
  }

  /** The 0.9 suggestion when the sides differ only in surrounding whitespace. */
  function WhitespaceSuggestion(l: seq<string>, r: seq<string>): (out: seq<Suggestion>)
    ensures forall x :: x in out ==> x.confidence == 9
  {
    if StripAll(l) == StripAll(r) then [Suggestion(UseLeft, 9, WhitespaceReason, l)] else []
  }

  /** The 0.6 suggestion when one side's line set is a proper subset of the other's. */
  function SupersetSuggestion(l: seq<string>, r: seq<string>): (out: seq<Suggestion>)
    ensures forall x :: x in out ==> x.confidence == 6
  {
    if (set x | x in l) < (set x | x in r) then [Suggestion(UseRight, 6, RightSupersetReason, r)]
    else if (set x | x in r) < (set x | x in l) then [Suggestion(UseLeft, 6, LeftSupersetReason, l)]
    else []
  }

  /** The 0.5 suggestion for a reordering; two lists sort equal exactly when their multisets agree. */
  function ReorderSuggestion(l: seq<string>, r: seq<string>): (out: seq<Suggestion>)
    ensures forall x :: x in out ==> x.confidence == 5
  {
    if multiset(l) == multiset(r) then [Suggestion(UseLeft, 5, ReorderReason, l)] else []
  }

  /** The suggestions `analyze` appends, in the order it appends them. */
  function Candidates(c: MergeConflict): seq<Suggestion>
  {
    var l, r := c.leftLines, c.rightLines;
    EmptySideSuggestions(l, r) + WhitespaceSuggestion(l, r) + SupersetSuggestion(l, r) + ReorderSuggestion(l, r)
  }

  predicate NonIncreasing(s: seq<Suggestion>)
  {
    forall i, j :: 0 <= i < j < |s| ==> s[i].confidence >= s[j].confidence
  }

  /** Place `x` after every suggestion at least as confident (what a stable descending sort does). */
  function InsertByConfidence(x: Suggestion, s: seq<Suggestion>): (r: seq<Suggestion>)
    ensures |r| == |s| + 1
    ensures multiset(r) == multiset(s) + multiset{x}
    ensures r[0] == x || (s != [] && r[0] == s[0])
  {
    if s == [] then [x]
    else if s[0].confidence >= x.confidence then
      assert s == [s[0]] + s[1..];
      [s[0]] + InsertByConfidence(x, s[1..])
    else [x] + s
  }

  lemma {:induction false} InsertKeepsOrder(x: Suggestion, s: seq<Suggestion>)
    requires NonIncreasing(s)
    ensures NonIncreasing(InsertByConfidence(x, s))
  {
    if s != [] && s[0].confidence >= x.confidence {
      InsertKeepsOrder(x, s[1..]);
      var t := InsertByConfidence(x, s[1..]);
      assert t[0].confidence <= s[0].confidence;
      assert forall j :: 0 <= j < |t| ==> t[0].confidence >= t[j].confidence;
    }
  }

  /** The suggestions at confidence `c`, in their order in `s`. */
  function AtConfidence(s: seq<Suggestion>, c: nat): (r: seq<Suggestion>)
    ensures forall x :: x in r <==> x in s && x.confidence == c
  {
    if s == [] then []
    else (if s[0].confidence == c then [s[0]] else []) + AtConfidence(s[1..], c)
  }

  lemma {:induction false} AtConfidenceAppend(a: seq<Suggestion>, b: seq<Suggestion>, c: nat)
    ensures AtConfidence(a + b, c) == AtConfidence(a, c) + AtConfidence(b, c)
  {
    if a != [] {
      AtConfidenceAppend(a[1..], b, c);
      assert a == [a[0]] + a[1..] && a + b == [a[0]] + (a[1..] + b);
      TiesCons(a[0], a[1..] + b, a[1..], c, AtConfidence(b, c));
    } else {
      assert a + b == b;
    }
  }

  lemma AtConfidenceNone(s: seq<Suggestion>, c: nat)
    requires forall y :: y in s ==> y.confidence != c
    ensures AtConfidence(s, c) == []
  {
    var z := AtConfidence(s, c);
    assert forall k :: 0 <= k < |z| ==> z[k] in z;
  }

  lemma {:induction false} AtConfidenceCons(y: Suggestion, s: seq<Suggestion>, c: nat)
    ensures AtConfidence([y] + s, c) == (if y.confidence == c then [y] else []) + AtConfidence(s, c)
  {
    assert ([y] + s)[0] == y && ([y] + s)[1..] == s;
  }

  /** A suggestion more confident than the head of an ordered list has no ties in it. */
  lemma {:induction false} AboveHeadNoTies(x: Suggestion, s: seq<Suggestion>)
    requires NonIncreasing(s) && s != [] && s[0].confidence < x.confidence
    ensures AtConfidence(s, x.confidence) == []
  {
    forall y | y in s ensures y.confidence != x.confidence {
      var k :| 0 <= k < |s| && s[k] == y;
      assert s[0].confidence >= s[k].confidence;
    }
    AtConfidenceNone(s, x.confidence);
  }

  /** Inserting into an ordered list puts `x` after every suggestion of its own confidence. */
  lemma {:induction false} InsertKeepsTies(x: Suggestion, s: seq<Suggestion>, c: nat)
    requires NonIncreasing(s)
    ensures AtConfidence(InsertByConfidence(x, s), c) ==
      AtConfidence(s, c) + (if x.confidence == c then [x] else [])
  {
    if s == [] {
      assert InsertByConfidence(x, s) == [x] + s;
      AtConfidenceCons(x, s, c);
    } else if s[0].confidence >= x.confidence {
      assert NonIncreasing(s[1..]);
      InsertKeepsTies(x, s[1..], c);
      InsertTiesPast(x, s, c);
    } else {
      assert InsertByConfidence(x, s) == [x] + s;
      AtConfidenceCons(x, s, c);
      if x.confidence == c {
        AboveHeadNoTies(x, s);
      }
    }
  }

  lemma {:induction false} InsertPastHead(x: Suggestion, s: seq<Suggestion>)
    requires s != [] && s[0].confidence >= x.confidence
    ensures InsertByConfidence(x, s) == [s[0]] + InsertByConfidence(x, s[1..])
  {
  }

  /** The step of `InsertKeepsTies` that passes over the head of the list. */
  lemma {:induction false} InsertTiesPast(x: Suggestion, s: seq<Suggestion>, c: nat)
    requires s != [] && s[0].confidence >= x.confidence
    requires AtConfidence(InsertByConfidence(x, s[1..]), c) ==
      AtConfidence(s[1..], c) + (if x.confidence == c then [x] else [])
    ensures AtConfidence(InsertByConfidence(x, s), c) ==
      AtConfidence(s, c) + (if x.confidence == c then [x] else [])
  {
    InsertPastHead(x, s);
    assert s == [s[0]] + s[1..];
    TiesCons(s[0], InsertByConfidence(x, s[1..]), s[1..], c, if x.confidence == c then [x] else []);
  }

  /** Putting the same suggestion in front of two lists keeps their tie lists related. */
  lemma {:induction false} TiesCons(h: Suggestion, t: seq<Suggestion>, u: seq<Suggestion>, c: nat, xs: seq<Suggestion>)
    requires AtConfidence(t, c) == AtConfidence(u, c) + xs
    ensures AtConfidence([h] + t, c) == AtConfidence([h] + u, c) + xs
  {
    AtConfidenceCons(h, t, c);
    AtConfidenceCons(h, u, c);
    var hs := if h.confidence == c then [h] else [];
    assert hs + (AtConfidence(u, c) + xs) == (hs + AtConfidence(u, c)) + xs;
  }

  /** `list.sort(key=confidence, reverse=True)`, a stable sort: ties keep their input order. */
  function SortByConfidence(s: seq<Suggestion>): (r: seq<Suggestion>)
    ensures NonIncreasing(r)
    ensures multiset(r) == multiset(s)
    ensures forall c :: AtConfidence(r, c) == AtConfidence(s, c)
  {
    if s == [] then []
    else
      var init, last := s[..|s| - 1], s[|s| - 1];
      assert s == init + [last];
      var sorted := SortByConfidence(init);
      InsertKeepsOrder(last, sorted);
      assert forall c :: AtConfidence(InsertByConfidence(last, sorted), c) == AtConfidence(s, c) by {
        forall c ensures AtConfidence(InsertByConfidence(last, sorted), c) == AtConfidence(s, c) {
          InsertKeepsTies(last, sorted, c);
          AtConfidenceAppend(init, [last], c);
        }
      }
      InsertByConfidence(last, sorted)
  }

  /** `ConflictAnalyzer.analyze`: the candidates, most confident first. */
  function Analyze(c: MergeConflict): (r: seq<Suggestion>)
    ensures NonIncreasing(r)
    ensures multiset(r) == multiset(Candidates(c))
    ensures forall k :: AtConfidence(r, k) == AtConfidence(Candidates(c), k)
  {
    SortByConfidence(Candidates(c))
  }

  /** The candidate suggestions: when each is made, and that 0.9 is the highest confidence. */
  lemma CandidatesProps(c: MergeConflict)
    ensures (c.leftLines == [] && c.rightLines != []) <==>
      Suggestion(UseRight, 8, LeftEmptyReason, c.rightLines) in Candidates(c)
    ensures (c.rightLines == [] && c.leftLines != []) <==>
      Suggestion(UseLeft, 8, RightEmptyReason, c.leftLines) in Candidates(c)
    ensures StripAll(c.leftLines) == StripAll(c.rightLines) <==>
      Suggestion(UseLeft, 9, WhitespaceReason, c.leftLines) in Candidates(c)
    ensures forall x :: x in Candidates(c) ==> x.confidence <= 9
  {
    var l, r := c.leftLines, c.rightLines;
    var e, w, p, o := EmptySideSuggestions(l, r), WhitespaceSuggestion(l, r),
                      SupersetSuggestion(l, r), ReorderSuggestion(l, r);
    assert Candidates(c) == e + w + p + o;
  }

  /** Sequences that are permutations of each other hold the same elements. */
  lemma SameMembers<T>(a: seq<T>, b: seq<T>)
    requires multiset(a) == multiset(b)
    ensures forall x :: x in a <==> x in b
  {
    assert forall x :: x in a <==> x in multiset(a);
    assert forall x :: x in b <==> x in multiset(b);
  }

  /** `analyze` suggests the other side at 0.8 exactly when one side is empty and the other is not. */
  lemma AnalyzeDeletion(c: MergeConflict)
    ensures (c.leftLines == [] && c.rightLines != []) <==>
      Suggestion(UseRight, 8, LeftEmptyReason, c.rightLines) in Analyze(c)
    ensures (c.rightLines == [] && c.leftLines != []) <==>
      Suggestion(UseLeft, 8, RightEmptyReason, c.leftLines) in Analyze(c)
  {
    CandidatesProps(c);
    SameMembers(Analyze(c), Candidates(c));
  }

  /** A whitespace-only difference puts USE_LEFT at 0.9 first, and only then is 0.9 suggested. */
  lemma AnalyzeWhitespaceFirst(c: MergeConflict)
    ensures StripAll(c.leftLines) == StripAll(c.rightLines) <==>
      Suggestion(UseLeft, 9, WhitespaceReason, c.leftLines) in Analyze(c)
    ensures StripAll(c.leftLines) == StripAll(c.rightLines) ==>
      Analyze(c)[0] == Suggestion(UseLeft, 9, WhitespaceReason, c.leftLines)
  {
    CandidatesProps(c);
    var cs, r := Candidates(c), Analyze(c);
    var w := Suggestion(UseLeft, 9, WhitespaceReason, c.leftLines);
    SameMembers(r, cs);
    if StripAll(c.leftLines) == StripAll(c.rightLines) {
      var k :| 0 <= k < |r| && r[k] == w;
      assert r[0] in cs;
      CandidatesAtNine(c);
    }
  }

  /** Only the whitespace suggestion carries confidence 0.9. */
  lemma CandidatesAtNine(c: MergeConflict)
    ensures forall x :: x in Candidates(c) && x.confidence == 9 ==> x in WhitespaceSuggestion(c.leftLines, c.rightLines)
  {
    var l, r := c.leftLines, c.rightLines;
    assert Candidates(c) == EmptySideSuggestions(l, r) + WhitespaceSuggestion(l, r)
      + SupersetSuggestion(l, r) + ReorderSuggestion(l, r);
  }

  // ---------------------------------------------------------------- ConflictMarkerParser

  /** `ch` seven times at the start of the line. */
  predicate SevenOf(line: string, ch: char)
  {
    |line| >= 7 && forall k :: 0 <= k < 7 ==> line[k] == ch
  }

  /** The longest prefix without a newline (what `.*` takes). */
  function UpToNewline(s: string): (r: string)
    ensures |r| <= |s|
  {
    if s == [] || s[0] == '\n' then [] else [s[0]] + UpToNewline(s[1..])
  }

  /** `.*` takes the longest prefix that holds no newline. */
  lemma {:induction false} UpToNewlineProps(s: string)
    ensures UpToNewline(s) == s[..|UpToNewline(s)|] && '\n' !in UpToNewline(s)
    ensures |UpToNewline(s)| < |s| ==> s[|UpToNewline(s)|] == '\n'
  {
    if s != [] && s[0] != '\n' {
      UpToNewlineProps(s[1..]);
      assert s[1..][..|UpToNewline(s[1..])|] == s[1..|UpToNewline(s[1..])| + 1];
    }
  }

  /**
   * `re.match(r'^c{7}\s*(.*)$', line)`: after seven `ch` the greedy `\s*`
   * takes the leading whitespace, `(.*)` the rest of that line, and `$`
   * accepts only the end of the string or a final newline. The group, or
   * None when the line does not match.
   */
  function MarkerGroup(line: string, ch: char): (g: Option<string>)
    ensures g.Some? ==> SevenOf(line, ch) && line[0] == ch
  {
    if !SevenOf(line, ch) then None
    else
      var rest := LStrip(line[7..]);
      var body := UpToNewline(rest);
      var tail := rest[|body|..];
      if tail == [] || tail == "\n" then Some(body) else None
  }

  /** A marker line of one kind is never one of another kind: they begin with different characters. */
  lemma MarkersDiffer(line: string)
    ensures MarkerGroup(line, '<').Some? ==> MarkerGroup(line, '>').None? && MarkerGroup(line, '|').None?
                                             && !SepMarker(line)
    ensures MarkerGroup(line, '|').Some? || SepMarker(line) ==> MarkerGroup(line, '>').None?
  {
  }

  /** `re.match(r'^={7}\s*$', line)`. */
  predicate SepMarker(line: string)
  {
    SevenOf(line, '=') && AllSpace(line[7..])
  }

  predicate BaseMarker(line: string) { MarkerGroup(line, '|').Some? }
  predicate EndMarker(line: string) { MarkerGroup(line, '>').Some? }
  predicate StartMarker(line: string) { MarkerGroup(line, '<').Some? }

  /** A separator line inside a block: base or separator marker. */
  predicate InnerMarker(line: string) { BaseMarker(line) || SepMarker(line) }

  /** `group(1).strip() or default`. */
  function Label(g: string, default: string): (r: string)
    ensures default != [] ==> r != []
    ensures r == default || r == Strip(g)
  {
    if Strip(g) == [] then default else Strip(g)
  }

  /**
   * What the four marker patterns say about one line: the label an opening
   * or closing marker carries (None when the line is no such marker), and
   * whether it is a base or a separator marker.
   */
  datatype Marks = Marks(start: Option<string>, base: bool, sep: bool, end: Option<string>)

  function LabelOf(g: Option<string>, default: string): Option<string>
  {
    match g
    case None => None
    case Some(text) => Some(Label(text, default))
  }

  function Classify(line: string): (m: Marks)
    ensures m.start.Some? <==> StartMarker(line)
    ensures m.end.Some? <==> EndMarker(line)
    ensures m.start.Some? ==> !m.base && !m.sep && m.end.None? && m.start.value != []
    ensures m.base || m.sep ==> m.end.None?
    ensures m.end.Some? ==> m.end.value != []
  {
    MarkersDiffer(line);
    Marks(LabelOf(MarkerGroup(line, '<'), "LEFT"), BaseMarker(line), SepMarker(line), LabelOf(MarkerGroup(line, '>'), "RIGHT"))
  }

  /** Every line classified, in order. */
  function MarksOf(lines: seq<string>): (ms: seq<Marks>)
    ensures |ms| == |lines| && forall j :: 0 <= j < |lines| ==> ms[j] == Classify(lines[j])
  {
    seq(|lines|, j requires 0 <= j < |lines| => Classify(lines[j]))
  }

  /** Line classifications as the marker patterns can produce them: no line is of two kinds, and labels are not empty. */
  predicate Consistent(ms: seq<Marks>)
  {
    forall j :: 0 <= j < |ms| ==> ConsistentMarks(ms[j])
  }

  predicate ConsistentMarks(m: Marks)
  {
    (m.start.Some? ==> !m.base && !m.sep && m.end.None? && m.start.value != [])
    && (m.base || m.sep ==> m.end.None?)
    && (m.end.Some? ==> m.end.value != [])
  }

  datatype Section = LeftSection | BaseSection | RightSection

  /** A block read up to its closing marker. */
  datatype Block = Block(endLine: nat, left: seq<string>, base: seq<string>, right: seq<string>, rightLabel: string)

  /** The conflicts `parse_conflicts` returns (a dict per conflict in the source). */
  datatype ParsedConflict = ParsedConflict(startLine: nat, endLine: nat,
                                           leftLines: seq<string>, baseLines: seq<string>, rightLines: seq<string>,
                                           leftLabel: string, rightLabel: string)

  /**
   * The inner loop shared by `parse_conflicts` and `remove_conflict_markers`,
   * over the classified lines: from line `i` of an open block, route body
   * lines to the section named by the latest marker, until the closing marker
   * (None when there is none).
   */
  function ScanBlock(lines: seq<string>, ms: seq<Marks>, i: nat, sec: Section, l: seq<string>, b: seq<string>, r: seq<string>)
    : (out: Option<Block>)
    requires |ms| == |lines|
    ensures out.Some? ==> i <= out.value.endLine < |lines| && ms[out.value.endLine].end == Some(out.value.rightLabel)
    decreases |lines| - i
  {
    if i >= |lines| then None
    else if ms[i].base then ScanBlock(lines, ms, i + 1, BaseSection, l, b, r)
    else if ms[i].sep then ScanBlock(lines, ms, i + 1, RightSection, l, b, r)
    else if ms[i].end.Some? then Some(Block(i, l, b, r, ms[i].end.value))
    else if sec == LeftSection then ScanBlock(lines, ms, i + 1, sec, l + [lines[i]], b, r)
    else if sec == BaseSection then ScanBlock(lines, ms, i + 1, sec, l, b + [lines[i]], r)
    else ScanBlock(lines, ms, i + 1, sec, l, b, r + [lines[i]])
  }

  /** A block closes on the first end marker after it opens, and only a missing end marker leaves it open. */
  lemma {:induction false} ScanBlockEnd(lines: seq<string>, ms: seq<Marks>, i: nat, sec: Section,
                                        l: seq<string>, b: seq<string>, r: seq<string>)
    requires |ms| == |lines| && Consistent(ms)
    ensures ScanBlock(lines, ms, i, sec, l, b, r).None? <==> forall j :: i <= j < |lines| ==> ms[j].end.None?
    ensures ScanBlock(lines, ms, i, sec, l, b, r).Some? ==>
      forall j :: i <= j < ScanBlock(lines, ms, i, sec, l, b, r).value.endLine ==> ms[j].end.None?
    decreases |lines| - i
  {
    if i < |lines| {
      if ms[i].base {
        ScanBlockEnd(lines, ms, i + 1, BaseSection, l, b, r);
      } else if ms[i].sep {
        ScanBlockEnd(lines, ms, i + 1, RightSection, l, b, r);
      } else if ms[i].end.Some? {
      } else if sec == LeftSection {
        ScanBlockEnd(lines, ms, i + 1, sec, l + [lines[i]], b, r);
      } else if sec == BaseSection {
        ScanBlockEnd(lines, ms, i + 1, sec, l, b + [lines[i]], r);
      } else {
        ScanBlockEnd(lines, ms, i + 1, sec, l, b, r + [lines[i]]);
      }
    }
  }

  /** The shared inner loop, from the line after an opening marker. */
  method ReadBlock(lines: seq<string>, start: nat) returns (block: Option<Block>)
    ensures block == ScanBlock(lines, MarksOf(lines), start, LeftSection, [], [], [])
  {
    ghost var ms := MarksOf(lines);
    var left, base, right := [], [], [];
    var section := LeftSection;
    var i := start;
    while i < |lines|
      invariant start <= i
      invariant ScanBlock(lines, ms, i, section, left, base, right) == ScanBlock(lines, ms, start, LeftSection, [], [], [])
      decreases |lines| - i
    {
      if MarkerGroup(lines[i], '|').Some? {
        section := BaseSection;
      } else if SepMarker(lines[i]) {
        section := RightSection;
      } else if MarkerGroup(lines[i], '>').Some? {
        var matchEnd := MarkerGroup(lines[i], '>');
        return Some(Block(i, left, base, right, Label(matchEnd.value, "RIGHT")));
      } else {
        if section == LeftSection {
          left := left + [lines[i]];
        } else if section == BaseSection {
          base := base + [lines[i]];
        } else {
          right := right + [lines[i]];
        }
      }
      i := i + 1;
    }
    return None;
  }

  /** `parse_conflicts` from line `i` on, over the classified lines. */
  function ParseFrom(lines: seq<string>, ms: seq<Marks>, i: nat): seq<ParsedConflict>
    requires |ms| == |lines|
    decreases |lines| - i
  {
    if i >= |lines| then []
    else match ms[i].start
      case None => ParseFrom(lines, ms, i + 1)
      case Some(g) =>
        match ScanBlock(lines, ms, i + 1, LeftSection, [], [], [])
        case None => []
        case Some(bl) =>
          [ParsedConflict(i, bl.endLine, bl.left, bl.base, bl.right, g, bl.rightLabel)]
          + ParseFrom(lines, ms, bl.endLine + 1)
  }

  /** `parse_conflicts` at a line that opens a closed block. */
  lemma ParseFromBlock(lines: seq<string>, ms: seq<Marks>, i: nat, g: string, bl: Block)
    requires |ms| == |lines| && i < |lines| && ms[i].start == Some(g)
    requires ScanBlock(lines, ms, i + 1, LeftSection, [], [], []) == Some(bl)
    ensures ParseFrom(lines, ms, i)
      == [ParsedConflict(i, bl.endLine, bl.left, bl.base, bl.right, g, bl.rightLabel)]
         + ParseFrom(lines, ms, bl.endLine + 1)
  {
  }

  /** `ConflictMarkerParser.parse_conflicts`. */
  method ParseConflicts(lines: seq<string>) returns (conflicts: seq<ParsedConflict>)
    ensures conflicts == ParseFrom(lines, MarksOf(lines), 0)
  {
    ghost var ms := MarksOf(lines);
    conflicts := [];
    var i := 0;
    while i < |lines|
      invariant 0 <= i <= |lines| + 1
      invariant conflicts + ParseFrom(lines, ms, i) == ParseFrom(lines, ms, 0)
      decreases |lines| + 1 - i
    {
      var m := MarkerGroup(lines[i], '<');
      if m.Some? {
        var block := ReadBlock(lines, i + 1);
        if block.Some? {
          var bl := block.value;
          var leftLabel := Label(m.value, "LEFT");
          var conflict := ParsedConflict(i, bl.endLine, bl.left, bl.base, bl.right, leftLabel, bl.rightLabel);
          ParseFromBlock(lines, ms, i, leftLabel, bl);
          AppendAssoc(conflicts, [conflict], ParseFrom(lines, ms, bl.endLine + 1));
          conflicts := conflicts + [conflict];
          i := bl.endLine;
        } else {
          ParseFromOpen(lines, ms, i);
          i := |lines|;
        }
      } else {
        ParseFromPlain(lines, ms, i);
      }
      i := i + 1;
    }
  }

  /** `parse_conflicts` at a line that opens a block with no closing marker: nothing more is found. */
  lemma ParseFromOpen(lines: seq<string>, ms: seq<Marks>, i: nat)
    requires |ms| == |lines| && i < |lines| && ms[i].start.Some?
    requires ScanBlock(lines, ms, i + 1, LeftSection, [], [], []).None?
    ensures ParseFrom(lines, ms, i) == [] && ParseFrom(lines, ms, |lines| + 1) == []
  {
  }

  /** `parse_conflicts` at a line outside any block. */
  lemma ParseFromPlain(lines: seq<string>, ms: seq<Marks>, i: nat)
    requires |ms| == |lines| && i < |lines| && ms[i].start.None?
    ensures ParseFrom(lines, ms, i) == ParseFrom(lines, ms, i + 1)
  {
  }

  /** One parsed conflict: it opens on a start marker, closes on the first end marker after it, and has labels. */
  predicate WellParsed(lines: seq<string>, ms: seq<Marks>, c: ParsedConflict)
    requires |ms| == |lines|
  {
    c.startLine < c.endLine < |lines|
    && ms[c.startLine].start.Some? && ms[c.endLine].end.Some?
    && (forall j :: c.startLine < j < c.endLine ==> ms[j].end.None?)
    && c.leftLabel != [] && c.rightLabel != []
  }

  /**
   * Conflicts as `parse_conflicts` reports them from line `i` on: well-formed
   * blocks in increasing order that do not overlap, with no opening marker
   * before the first one.
   */
  predicate ParsedFrom(lines: seq<string>, ms: seq<Marks>, i: nat, cs: seq<ParsedConflict>)
    requires |ms| == |lines|
  {
    (forall k :: 0 <= k < |cs| ==> i <= cs[k].startLine && WellParsed(lines, ms, cs[k]))
    && (forall k :: 0 <= k < |cs| - 1 ==> cs[k].endLine < cs[k + 1].startLine)
    && (cs != [] ==> forall j :: i <= j < cs[0].startLine && j < |lines| ==> ms[j].start.None?)
  }

  /** A closed block followed by conflicts parsed after it. */
  lemma ParsedFromCons(lines: seq<string>, ms: seq<Marks>, c: ParsedConflict, rest: seq<ParsedConflict>)
    requires |ms| == |lines| && WellParsed(lines, ms, c)
    requires ParsedFrom(lines, ms, c.endLine + 1, rest)
    ensures ParsedFrom(lines, ms, c.startLine, [c] + rest)
  {
    var cs := [c] + rest;
    assert forall k :: 1 <= k < |cs| ==> cs[k] == rest[k - 1];
  }

  /** The conflict reported for a closed block is well formed. */
  lemma BlockWellParsed(lines: seq<string>, ms: seq<Marks>, i: nat, g: string, bl: Block)
    requires |ms| == |lines| && Consistent(ms) && i < |lines| && ms[i].start == Some(g)
    requires ScanBlock(lines, ms, i + 1, LeftSection, [], [], []) == Some(bl)
    ensures WellParsed(lines, ms, ParsedConflict(i, bl.endLine, bl.left, bl.base, bl.right, g, bl.rightLabel))
  {
    ScanBlockEnd(lines, ms, i + 1, LeftSection, [], [], []);
    assert ConsistentMarks(ms[i]) && ConsistentMarks(ms[bl.endLine]);
  }

  /** The parsing step at a line that opens no block. */
  lemma ParseStepSkip(lines: seq<string>, ms: seq<Marks>, i: nat)
    requires |ms| == |lines| && i < |lines| && ms[i].start.None?
    requires ParsedFrom(lines, ms, i + 1, ParseFrom(lines, ms, i + 1))
    ensures ParsedFrom(lines, ms, i, ParseFrom(lines, ms, i))
  {
    var cs := ParseFrom(lines, ms, i + 1);
    assert ParseFrom(lines, ms, i) == cs;
  }

  /** The parsing step at a line that opens a closed block. */
  lemma ParseStepBlock(lines: seq<string>, ms: seq<Marks>, i: nat, g: string, bl: Block)
    requires |ms| == |lines| && Consistent(ms) && i < |lines| && ms[i].start == Some(g)
    requires ScanBlock(lines, ms, i + 1, LeftSection, [], [], []) == Some(bl)
    requires ParsedFrom(lines, ms, bl.endLine + 1, ParseFrom(lines, ms, bl.endLine + 1))
    ensures ParsedFrom(lines, ms, i, ParseFrom(lines, ms, i))
  {
    var c := ParsedConflict(i, bl.endLine, bl.left, bl.base, bl.right, g, bl.rightLabel);
    var rest := ParseFrom(lines, ms, bl.endLine + 1);
    BlockWellParsed(lines, ms, i, g, bl);
    ParsedFromCons(lines, ms, c, rest);
    ParseFromBlock(lines, ms, i, g, bl);
  }

  /** What `parse_conflicts` returns from line `i` on. */
  lemma {:induction false} ParseFromProps(lines: seq<string>, ms: seq<Marks>, i: nat)
    requires |ms| == |lines| && Consistent(ms)
    ensures ParsedFrom(lines, ms, i, ParseFrom(lines, ms, i))
    decreases |lines| - i
  {
    if i < |lines| {
      match ms[i].start
      case None =>
        ParseFromProps(lines, ms, i + 1);
        ParseStepSkip(lines, ms, i);
      case Some(g) =>
        match ScanBlock(lines, ms, i + 1, LeftSection, [], [], [])
        case None =>
        case Some(bl) =>
          ParseFromProps(lines, ms, bl.endLine + 1);
          ParseStepBlock(lines, ms, i, g, bl);
    }
  }

  /** The body lines of a block that are not base or separator markers. */
  function BodyLines(lines: seq<string>, ms: seq<Marks>): seq<string>
    requires |ms| == |lines|
  {
    if lines == [] then []
    else (if ms[0].base || ms[0].sep then [] else [lines[0]]) + BodyLines(lines[1..], ms[1..])
  }

  lemma BodyLinesStep(lines: seq<string>, ms: seq<Marks>, i: nat, e: nat)
    requires |ms| == |lines| && i < e <= |lines|
    ensures BodyLines(lines[i..e], ms[i..e])
      == (if ms[i].base || ms[i].sep then [] else [lines[i]]) + BodyLines(lines[i + 1..e], ms[i + 1..e])
  {
    var body, bms := lines[i..e], ms[i..e];
    assert body[0] == lines[i] && bms[0] == ms[i];
    assert body[1..] == lines[i + 1..e] && bms[1..] == ms[i + 1..e];
  }

  /**
   * A scanned block loses no body line and invents none: its three sections
   * together hold exactly the non-marker lines between the markers.
   */
  lemma {:induction false} ScanBlockKeepsBody(lines: seq<string>, ms: seq<Marks>, i: nat, sec: Section,
                                              l: seq<string>, b: seq<string>, r: seq<string>)
    requires |ms| == |lines| && ScanBlock(lines, ms, i, sec, l, b, r).Some?
    ensures KeepsBody(lines, ms, i, sec, l, b, r)
    decreases |lines| - i
  {
    var bl := ScanBlock(lines, ms, i, sec, l, b, r).value;
    if bl.endLine == i {
      assert lines[i..i] == [];
    } else {
      var sec2, l2, b2, r2 := ScanNext(lines, ms, i, sec, l, b, r);
      ScanBlockKeepsBody(lines, ms, i + 1, sec2, l2, b2, r2);
      KeepsBodyStep(lines, ms, i, sec, l, b, r, sec2, l2, b2, r2);
    }
  }

  /** The scan state after line `i`, when line `i` does not close the block. */
  lemma ScanNext(lines: seq<string>, ms: seq<Marks>, i: nat, sec: Section, l: seq<string>, b: seq<string>, r: seq<string>)
    returns (sec2: Section, l2: seq<string>, b2: seq<string>, r2: seq<string>)
    requires |ms| == |lines| && ScanBlock(lines, ms, i, sec, l, b, r).Some?
    requires ScanBlock(lines, ms, i, sec, l, b, r).value.endLine > i
    ensures ScanBlock(lines, ms, i + 1, sec2, l2, b2, r2) == ScanBlock(lines, ms, i, sec, l, b, r)
    ensures multiset(l2) + multiset(b2) + multiset(r2)
      == multiset(l) + multiset(b) + multiset(r) + multiset(if ms[i].base || ms[i].sep then [] else [lines[i]])
  {
    var x := [lines[i]];
    if ms[i].base {
      sec2, l2, b2, r2 := BaseSection, l, b, r;
    } else if ms[i].sep {
      sec2, l2, b2, r2 := RightSection, l, b, r;
    } else if sec == LeftSection {
      sec2, l2, b2, r2 := sec, l + x, b, r;
    } else if sec == BaseSection {
      sec2, l2, b2, r2 := sec, l, b + x, r;
    } else {
      sec2, l2, b2, r2 := sec, l, b, r + x;
    }
  }

  /** The sections of the block scanned from `i` hold what was collected plus the body lines up to its end. */
  ghost predicate KeepsBody(lines: seq<string>, ms: seq<Marks>, i: nat, sec: Section,
                            l: seq<string>, b: seq<string>, r: seq<string>)
    requires |ms| == |lines| && ScanBlock(lines, ms, i, sec, l, b, r).Some?
  {
    var bl := ScanBlock(lines, ms, i, sec, l, b, r).value;
    multiset(bl.left) + multiset(bl.base) + multiset(bl.right)
    == multiset(l) + multiset(b) + multiset(r) + multiset(BodyLines(lines[i..bl.endLine], ms[i..bl.endLine]))
  }

  /** One scanned line: what the scan from `i + 1` keeps, plus line `i` unless it is a marker. */
  lemma KeepsBodyStep(lines: seq<string>, ms: seq<Marks>, i: nat, sec: Section,
                      l: seq<string>, b: seq<string>, r: seq<string>,
                      sec2: Section, l2: seq<string>, b2: seq<string>, r2: seq<string>)
    requires |ms| == |lines| && i < |lines| && ScanBlock(lines, ms, i, sec, l, b, r).Some?
    requires ScanBlock(lines, ms, i, sec, l, b, r).value.endLine > i
    requires ScanBlock(lines, ms, i + 1, sec2, l2, b2, r2) == ScanBlock(lines, ms, i, sec, l, b, r)
    requires multiset(l2) + multiset(b2) + multiset(r2)
      == multiset(l) + multiset(b) + multiset(r) + multiset(if ms[i].base || ms[i].sep then [] else [lines[i]])
    requires KeepsBody(lines, ms, i + 1, sec2, l2, b2, r2)
    ensures KeepsBody(lines, ms, i, sec, l, b, r)
  {
    BodyLinesStep(lines, ms, i, ScanBlock(lines, ms, i, sec, l, b, r).value.endLine);
  }

  /** A two-way block (no base or separator marker) puts its whole body on the left. */
  lemma {:induction false} ScanBlockTwoWay(lines: seq<string>, ms: seq<Marks>, i: nat,
                                           l: seq<string>, b: seq<string>, r: seq<string>)
    requires |ms| == |lines| && ScanBlock(lines, ms, i, LeftSection, l, b, r).Some?
    requires forall j :: i <= j < ScanBlock(lines, ms, i, LeftSection, l, b, r).value.endLine ==> !ms[j].base && !ms[j].sep
    ensures var bl := ScanBlock(lines, ms, i, LeftSection, l, b, r).value;
      bl.left == l + lines[i..bl.endLine] && bl.base == b && bl.right == r
    decreases |lines| - i
  {
    var bl := ScanBlock(lines, ms, i, LeftSection, l, b, r).value;
    if bl.endLine == i {
      assert lines[i..i] == [];
    } else {
      ScanBlockTwoWay(lines, ms, i + 1, l + [lines[i]], b, r);
      assert lines[i..bl.endLine] == [lines[i]] + lines[i + 1..bl.endLine];
    }
  }

  /** A body line: not a base, separator or end marker, so the scan routes it to the current section. */
  predicate PlainRange(ms: seq<Marks>, i: nat, j: nat)
    requires j <= |ms|
  {
    forall k :: i <= k < j ==> !ms[k].base && !ms[k].sep && ms[k].end.None?
  }

  /** The section list `xs` joins when the scan is in section `sec`. */
  function Into(sec: Section, target: Section, acc: seq<string>, xs: seq<string>): seq<string>
  {
    if sec == target then acc + xs else acc
  }

  /** A run of body lines is appended, in order, to the section the scan is in. */
  lemma {:induction false} ScanPlain(lines: seq<string>, ms: seq<Marks>, i: nat, j: nat, sec: Section,
                                     l: seq<string>, b: seq<string>, r: seq<string>)
    requires |ms| == |lines| && i <= j <= |lines| && PlainRange(ms, i, j)
    ensures ScanBlock(lines, ms, i, sec, l, b, r)
      == ScanBlock(lines, ms, j, sec, Into(sec, LeftSection, l, lines[i..j]),
                   Into(sec, BaseSection, b, lines[i..j]), Into(sec, RightSection, r, lines[i..j]))
    decreases j - i
  {
    if i == j {
      assert lines[i..j] == [];
      assert l + [] == l && b + [] == b && r + [] == r;
    } else {
      var x := [lines[i]];
      ScanPlain(lines, ms, i + 1, j, sec, Into(sec, LeftSection, l, x), Into(sec, BaseSection, b, x),
                Into(sec, RightSection, r, x));
      assert lines[i..j] == x + lines[i + 1..j];
      AppendAssoc(l, x, lines[i + 1..j]);
      AppendAssoc(b, x, lines[i + 1..j]);
      AppendAssoc(r, x, lines[i + 1..j]);
    }
  }

  /**
   * A two-way block `L, =======, R, >>>>>>>` (no marker line inside L or R)
   * reports L as its left lines, R as its right lines and no base lines.
   */
  lemma ScanBlockSeparated(lines: seq<string>, ms: seq<Marks>, i: nat, s: nat, e: nat)
    requires |ms| == |lines| && i <= s < e < |lines|
    requires ms[s].sep && !ms[s].base && ms[e].end.Some? && ConsistentMarks(ms[e])
    requires PlainRange(ms, i, s) && PlainRange(ms, s + 1, e)
    ensures ScanBlock(lines, ms, i, LeftSection, [], [], [])
      == Some(Block(e, lines[i..s], [], lines[s + 1..e], ms[e].end.value))
  {
    var L, R := lines[i..s], lines[s + 1..e];
    ScanPlain(lines, ms, i, s, LeftSection, [], [], []);
    assert Into(LeftSection, LeftSection, [], L) == L;
    assert ScanBlock(lines, ms, s, LeftSection, L, [], []) == ScanBlock(lines, ms, s + 1, RightSection, L, [], []);
    ScanPlain(lines, ms, s + 1, e, RightSection, L, [], []);
    assert Into(RightSection, RightSection, [], R) == R;
    assert ScanBlock(lines, ms, e, RightSection, L, [], R) == Some(Block(e, L, [], R, ms[e].end.value));
  }

  /**
   * A diff3 block `L, |||||||, B, =======, R, >>>>>>>` (no marker line inside
   * L, B or R) reports L, B and R as its left, base and right lines.
   */
  lemma ScanBlockDiff3(lines: seq<string>, ms: seq<Marks>, i: nat, p: nat, s: nat, e: nat)
    requires |ms| == |lines| && i <= p < s < e < |lines|
    requires ms[p].base && ms[s].sep && !ms[s].base && ms[e].end.Some? && ConsistentMarks(ms[e])
    requires PlainRange(ms, i, p) && PlainRange(ms, p + 1, s) && PlainRange(ms, s + 1, e)
    ensures ScanBlock(lines, ms, i, LeftSection, [], [], [])
      == Some(Block(e, lines[i..p], lines[p + 1..s], lines[s + 1..e], ms[e].end.value))
  {
    var L, B, R := lines[i..p], lines[p + 1..s], lines[s + 1..e];
    ScanPlain(lines, ms, i, p, LeftSection, [], [], []);
    assert Into(LeftSection, LeftSection, [], L) == L;
    assert ScanBlock(lines, ms, p, LeftSection, L, [], []) == ScanBlock(lines, ms, p + 1, BaseSection, L, [], []);
    ScanPlain(lines, ms, p + 1, s, BaseSection, L, [], []);
    assert Into(BaseSection, BaseSection, [], B) == B;
    assert ScanBlock(lines, ms, s, BaseSection, L, B, []) == ScanBlock(lines, ms, s + 1, RightSection, L, B, []);
    ScanPlain(lines, ms, s + 1, e, RightSection, L, B, []);
    assert Into(RightSection, RightSection, [], R) == R;
    assert ScanBlock(lines, ms, e, RightSection, L, B, R) == Some(Block(e, L, B, R, ms[e].end.value));
  }

  /** A line the marker patterns leave alone inside a block. */
  predicate BodyLine(line: string)
  {
    !BaseMarker(line) && !SepMarker(line) && !EndMarker(line)
  }

  /** No line of `xs` is a base, separator or end marker. */
  predicate AllBody(xs: seq<string>)
  {
    forall x :: x in xs ==> BodyLine(x)
  }

  /** `.*` stops at the newline that ends a label. */
  lemma {:induction false} UpToNewlineLabel(name: string)
    requires '\n' !in name
    ensures UpToNewline(name + "\n") == name
  {
    if name != [] {
      assert (name + "\n")[1..] == name[1..] + "\n";
      UpToNewlineLabel(name[1..]);
      assert [name[0]] + name[1..] == name;
    }
  }

  /** A marker line `ccccccc name` followed by a newline matches with the label as its group. */
  lemma MarkerLineGroup(line: string, ch: char, name: string)
    requires SevenOf(line, ch) && line[7..] == [' '] + name + ['\n']
    requires name != [] && !IsSpace(name[0]) && '\n' !in name
    ensures MarkerGroup(line, ch) == Some(name)
  {
    var rest := line[7..];
    assert rest[1..] == name + "\n";
    assert LStrip(rest) == name + "\n";
    UpToNewlineLabel(name);
    assert (name + "\n")[|name|..] == "\n";
  }

  /** A label without surrounding whitespace is kept as it is. */
  lemma StripBare(name: string)
    requires name != [] && !IsSpace(name[0]) && !IsSpace(name[|name| - 1])
    ensures Label(name, name) == name
  {
  }

  /** The default opening marker line opens a block labelled LEFT. */
  lemma LeftMarkerClassify()
    ensures Classify("<<<<<<< LEFT\n") == Marks(Some("LEFT"), false, false, None)
  {
    var l := "<<<<<<< LEFT\n";
    assert l[7..] == [' '] + "LEFT" + ['\n'];
    MarkerLineGroup(l, '<', "LEFT");
    StripBare("LEFT");
    assert l[0] == '<';
  }

  /** The default base marker line switches to the base section. */
  lemma BaseMarkerClassify()
    ensures Classify("||||||| BASE\n").base && !Classify("||||||| BASE\n").sep
  {
    var b := "||||||| BASE\n";
    assert b[7..] == [' '] + "BASE" + ['\n'];
    MarkerLineGroup(b, '|', "BASE");
    assert b[0] == '|';
  }

  /** The default separator line switches to the right section. */
  lemma SepMarkerClassify()
    ensures Classify("=======\n").sep && !Classify("=======\n").base
  {
    var s := "=======\n";
    assert s[7..] == "\n" && IsSpace('\n');
    assert s[0] == '=';
  }

  /** The default closing marker line closes a block labelled RIGHT. */
  lemma RightMarkerClassify()
    ensures Classify(">>>>>>> RIGHT\n").end == Some("RIGHT")
  {
    var r := ">>>>>>> RIGHT\n";
    assert r[7..] == [' '] + "RIGHT" + ['\n'];
    MarkerLineGroup(r, '>', "RIGHT");
    StripBare("RIGHT");
  }

  /** Body lines placed at `off` form a run the scan routes to one section. */
  lemma PlainSlice(lines: seq<string>, off: nat, xs: seq<string>)
    requires off + |xs| <= |lines| && lines[off..off + |xs|] == xs && AllBody(xs)
    ensures PlainRange(MarksOf(lines), off, off + |xs|)
  {
    var ms := MarksOf(lines);
    forall k | off <= k < off + |xs| ensures !ms[k].base && !ms[k].sep && ms[k].end.None? {
      assert lines[k] == xs[k - off];
      assert BodyLine(lines[k]);
    }
  }

  /** A diff3 marker block around left, base and right lines, with the given marker lines. */
  function Diff3Block(open: string, baseMark: string, sep: string, close: string,
                      L: seq<string>, B: seq<string>, R: seq<string>): seq<string>
  {
    [open] + L + [baseMark] + B + [sep] + R + [close]
  }

  /** Where the parts of a diff3 marker block sit. */
  lemma Diff3BlockLayout(open: string, baseMark: string, sep: string, close: string,
                         L: seq<string>, B: seq<string>, R: seq<string>)
    ensures var lines, p := Diff3Block(open, baseMark, sep, close, L, B, R), 1 + |L|;
      var s := p + 1 + |B|;
      var e := s + 1 + |R|;
      |lines| == e + 1
      && lines[0] == open && lines[p] == baseMark && lines[s] == sep && lines[e] == close
      && lines[1..p] == L && lines[p + 1..s] == B && lines[s + 1..e] == R
  {
    var lines := Diff3Block(open, baseMark, sep, close, L, B, R);
    var p := 1 + |L|;
    var s := p + 1 + |B|;
    var e := s + 1 + |R|;
    var A := [open] + L + [baseMark];
    var C := A + B + [sep];
    assert lines == C + R + [close];
    assert |A| == p + 1 && |C| == s + 1;
    assert A[1..p] == L;
    assert lines[1..p] == C[1..p] == A[1..p];
    assert lines[p + 1..s] == C[p + 1..s];
    assert C[p + 1..s] == B;
    assert lines[s + 1..e] == R;
  }

  /** Parsing classified lines laid out as one diff3 block: the block's three parts come back. */
  lemma ParseLaidOutMarks(lines: seq<string>, ms: seq<Marks>, p: nat, s: nat, e: nat)
    requires |ms| == |lines| && 0 < p < s < e && |lines| == e + 1
    requires ms[0].start == Some("LEFT") && ms[p].base && ms[s].sep && !ms[s].base
    requires ms[e].end == Some("RIGHT") && ConsistentMarks(ms[e])
    requires PlainRange(ms, 1, p) && PlainRange(ms, p + 1, s) && PlainRange(ms, s + 1, e)
    ensures ParseFrom(lines, ms, 0)
      == [ParsedConflict(0, e, lines[1..p], lines[p + 1..s], lines[s + 1..e], "LEFT", "RIGHT")]
  {
    ScanBlockDiff3(lines, ms, 1, p, s, e);
    ParseFromBlock(lines, ms, 0, "LEFT", Block(e, lines[1..p], lines[p + 1..s], lines[s + 1..e], "RIGHT"));
    assert ParseFrom(lines, ms, e + 1) == [];
  }

  /** Marker lines that classify as the default opening, base, separator and closing markers do. */
  predicate DefaultMarks(open: string, baseMark: string, sep: string, close: string)
  {
    Classify(open).start == Some("LEFT") && Classify(baseMark).base
    && Classify(sep).sep && !Classify(sep).base && Classify(close).end == Some("RIGHT")
  }

  /** Parsing a diff3 marker block whose part lines are no marker lines gives back those parts. */
  lemma ParseDiff3Block(open: string, baseMark: string, sep: string, close: string,
                        L: seq<string>, B: seq<string>, R: seq<string>)
    requires DefaultMarks(open, baseMark, sep, close)
    requires AllBody(L) && AllBody(B) && AllBody(R)
    ensures var lines := Diff3Block(open, baseMark, sep, close, L, B, R);
      ParseFrom(lines, MarksOf(lines), 0) == [ParsedConflict(0, |lines| - 1, L, B, R, "LEFT", "RIGHT")]
  {
    var lines := Diff3Block(open, baseMark, sep, close, L, B, R);
    var ms := MarksOf(lines);
    Diff3BlockLayout(open, baseMark, sep, close, L, B, R);
    var p := 1 + |L|;
    var s := p + 1 + |B|;
    var e := s + 1 + |R|;
    PlainSlice(lines, 1, L);
    PlainSlice(lines, p + 1, B);
    PlainSlice(lines, s + 1, R);
    assert ms[0] == Classify(open) && ms[p] == Classify(baseMark);
    assert ms[s] == Classify(sep) && ms[e] == Classify(close);
    ParseLaidOutMarks(lines, ms, p, s, e);
  }

  function TwoWayBlock(open: string, sep: string, close: string, L: seq<string>, R: seq<string>): seq<string>
  {
    [open] + L + [sep] + R + [close]
  }

  /** Where the parts of a two-way marker block sit. */
  lemma TwoWayBlockLayout(open: string, sep: string, close: string, L: seq<string>, R: seq<string>)
    ensures var lines, s := TwoWayBlock(open, sep, close, L, R), 1 + |L|;
      var e := s + 1 + |R|;
      |lines| == e + 1 && lines[0] == open && lines[s] == sep && lines[e] == close
      && lines[1..s] == L && lines[s + 1..e] == R
  {
    var lines := TwoWayBlock(open, sep, close, L, R);
    var s := 1 + |L|;
    var A := [open] + L + [sep];
    assert lines == A + R + [close];
    assert lines[1..s] == A[1..s];
  }

  /** Parsing a two-way marker block whose part lines are no marker lines gives back its sides and no base lines. */
  lemma ParseTwoWayBlock(open: string, sep: string, close: string, L: seq<string>, R: seq<string>)
    requires Classify(open).start == Some("LEFT") && Classify(sep).sep && !Classify(sep).base
    requires Classify(close).end == Some("RIGHT")
    requires AllBody(L) && AllBody(R)
    ensures var lines := TwoWayBlock(open, sep, close, L, R);
      ParseFrom(lines, MarksOf(lines), 0) == [ParsedConflict(0, |lines| - 1, L, [], R, "LEFT", "RIGHT")]
  {
    var lines := TwoWayBlock(open, sep, close, L, R);
    var ms := MarksOf(lines);
    TwoWayBlockLayout(open, sep, close, L, R);
    var s := 1 + |L|;
    var e := s + 1 + |R|;
    PlainSlice(lines, 1, L);
    PlainSlice(lines, s + 1, R);
    assert ms[0] == Classify(open) && ms[s] == Classify(sep) && ms[e] == Classify(close);
    ScanBlockSeparated(lines, ms, 1, s, e);
    ParseFromBlock(lines, ms, 0, "LEFT", Block(e, L, [], R, "RIGHT"));
    assert ParseFrom(lines, ms, e + 1) == [];
  }

  /** The merge engine's default marker lines classify as their kinds. */
  lemma EngineMarksDefault(e: Engine)
    requires e == NewEngine(e.strategy)
    ensures DefaultMarks(MarkerLine(e.markerLeft), MarkerLine(e.markerBase), MarkerLine(e.markerSep),
                         MarkerLine(e.markerRight))
  {
    EngineLeftMark(e);
    EngineBaseMark(e);
    EngineSepMark(e);
    EngineRightMark(e);
  }

  lemma EngineLeftMark(e: Engine)
    requires e == NewEngine(e.strategy)
    ensures Classify(MarkerLine(e.markerLeft)).start == Some("LEFT")
  {
    assert MarkerLine(e.markerLeft) == "<<<<<<< LEFT\n";
    LeftMarkerClassify();
  }

  lemma EngineBaseMark(e: Engine)
    requires e == NewEngine(e.strategy)
    ensures Classify(MarkerLine(e.markerBase)).base
  {
    assert MarkerLine(e.markerBase) == "||||||| BASE\n";
    BaseMarkerClassify();
  }

  lemma EngineSepMark(e: Engine)
    requires e == NewEngine(e.strategy)
    ensures Classify(MarkerLine(e.markerSep)).sep && !Classify(MarkerLine(e.markerSep)).base
  {
    assert MarkerLine(e.markerSep) == "=======\n";
    SepMarkerClassify();
  }

  lemma EngineRightMark(e: Engine)
    requires e == NewEngine(e.strategy)
    ensures Classify(MarkerLine(e.markerRight)).end == Some("RIGHT")
  {
    assert MarkerLine(e.markerRight) == ">>>>>>> RIGHT\n";
    RightMarkerClassify();
  }

  /**
   * Parsing the marker block the merge engine writes for a conflict region
   * gives back that region's left, base and right lines, with the default
   * labels, provided none of those lines is itself a marker line.
   */
  lemma ParseMarkerBlock(e: Engine, r: MergeRegion)
    requires e == NewEngine(e.strategy)
    requires AllBody(r.leftLines) && AllBody(r.baseLines) && AllBody(r.rightLines)
    ensures var block := MarkerBlock(e, r);
      ParseFrom(block, MarksOf(block), 0)
      == [ParsedConflict(0, |block| - 1, r.leftLines, r.baseLines, r.rightLines, "LEFT", "RIGHT")]
  {
    var ml, mb, msep, mr := MarkerLine(e.markerLeft), MarkerLine(e.markerBase), MarkerLine(e.markerSep),
                            MarkerLine(e.markerRight);
    EngineMarksDefault(e);
    assert MarkerBlock(e, r) == Diff3Block(ml, mb, msep, mr, r.leftLines, r.baseLines, r.rightLines);
    ParseDiff3Block(ml, mb, msep, mr, r.leftLines, r.baseLines, r.rightLines);
  }

  /** Parsing the block the rebuild writes for an open conflict gives back its left and right lines, and no base lines. */
  lemma ParseRebuildBlock(e: Engine, r: MergeRegion)
    requires e == NewEngine(e.strategy)
    requires AllBody(r.leftLines) && AllBody(r.rightLines)
    ensures var block := RebuildBlock(e, r);
      ParseFrom(block, MarksOf(block), 0) == [ParsedConflict(0, |block| - 1, r.leftLines, [], r.rightLines, "LEFT", "RIGHT")]
  {
    var ml, msep, mr := MarkerLine(e.markerLeft), MarkerLine(e.markerSep), MarkerLine(e.markerRight);
    EngineMarksDefault(e);
    assert RebuildBlock(e, r) == TwoWayBlock(ml, msep, mr, r.leftLines, r.rightLines);
    ParseTwoWayBlock(ml, msep, mr, r.leftLines, r.rightLines);
  }

  /** The lines a resolution keeps from a block; CUSTOM and UNRESOLVED keep nothing. */
  function Pick(l: seq<string>, b: seq<string>, r: seq<string>, resolution: ConflictResolution): seq<string>
  {
    match resolution
    case UseLeft => l
    case UseRight => r
    case UseBase => b
    case UseBothLeftFirst => l + r
    case UseBothRightFirst => r + l
    case _ => []
  }

  /** A block is replaced by what a conflict with those sections previews for the resolution. */
  lemma PickIsPreview(c: MergeConflict, resolution: ConflictResolution)
    ensures Pick(c.leftLines, c.baseLines, c.rightLines, resolution) == c.GetPreview(resolution)
  {
  }

  /** `remove_conflict_markers` from line `i` on, over the classified lines. */
  function RemoveFrom(lines: seq<string>, ms: seq<Marks>, i: nat, resolution: ConflictResolution): seq<string>
    requires |ms| == |lines|
    decreases |lines| - i
  {
    if i >= |lines| then []
    else match ms[i].start
      case None => [lines[i]] + RemoveFrom(lines, ms, i + 1, resolution)
      case Some(_) =>
        match ScanBlock(lines, ms, i + 1, LeftSection, [], [], [])
        case None => []
        case Some(bl) => Pick(bl.left, bl.base, bl.right, resolution) + RemoveFrom(lines, ms, bl.endLine + 1, resolution)
  }

  /** `remove_conflict_markers` at a line that opens a closed block. */
  lemma RemoveFromBlock(lines: seq<string>, ms: seq<Marks>, i: nat, bl: Block, resolution: ConflictResolution)
    requires |ms| == |lines| && i < |lines| && ms[i].start.Some?
    requires ScanBlock(lines, ms, i + 1, LeftSection, [], [], []) == Some(bl)
    ensures RemoveFrom(lines, ms, i, resolution)
      == Pick(bl.left, bl.base, bl.right, resolution) + RemoveFrom(lines, ms, bl.endLine + 1, resolution)
  {
  }

  /** The output so far followed by what remains after a closed block. */
  lemma RemoveAfterBlock(lines: seq<string>, ms: seq<Marks>, i: nat, bl: Block, resolution: ConflictResolution,
                         before: seq<string>, after: seq<string>)
    requires |ms| == |lines| && i < |lines| && ms[i].start.Some?
    requires ScanBlock(lines, ms, i + 1, LeftSection, [], [], []) == Some(bl)
    requires after == before + Pick(bl.left, bl.base, bl.right, resolution)
    ensures after + RemoveFrom(lines, ms, bl.endLine + 1, resolution) == before + RemoveFrom(lines, ms, i, resolution)
  {
    RemoveFromBlock(lines, ms, i, bl, resolution);
    AppendAssoc(before, Pick(bl.left, bl.base, bl.right, resolution), RemoveFrom(lines, ms, bl.endLine + 1, resolution));
  }

  /** `remove_conflict_markers` at a line that opens a block with no closing marker: nothing more is output. */
  lemma RemoveFromOpen(lines: seq<string>, ms: seq<Marks>, i: nat, resolution: ConflictResolution)
    requires |ms| == |lines| && i < |lines| && ms[i].start.Some?
    requires ScanBlock(lines, ms, i + 1, LeftSection, [], [], []).None?
    ensures RemoveFrom(lines, ms, i, resolution) == []
    ensures RemoveFrom(lines, ms, |lines| + 1, resolution) == []
  {
  }

  /** `remove_conflict_markers` at a line outside any block. */
  lemma RemoveFromPlain(lines: seq<string>, ms: seq<Marks>, i: nat, resolution: ConflictResolution)
    requires |ms| == |lines| && i < |lines| && ms[i].start.None?
    ensures RemoveFrom(lines, ms, i, resolution) == [lines[i]] + RemoveFrom(lines, ms, i + 1, resolution)
  {
  }

  /** The "apply resolution" step at a closing marker: extend the output by the resolution's pick. */
  method ExtendResolved(result: seq<string>, bl: Block, resolution: ConflictResolution) returns (r: seq<string>)
    ensures r == result + Pick(bl.left, bl.base, bl.right, resolution)
  {
    r := result;
    if resolution == UseLeft {
      r := r + bl.left;
    } else if resolution == UseRight {
      r := r + bl.right;
    } else if resolution == UseBase {
      r := r + bl.base;
    } else if resolution == UseBothLeftFirst {
      r := r + bl.left;
      r := r + bl.right;
    } else if resolution == UseBothRightFirst {
      r := r + bl.right;
      r := r + bl.left;
    }
  }

  /** `ConflictMarkerParser.remove_conflict_markers`. */
  method RemoveConflictMarkers(lines: seq<string>, resolution: ConflictResolution) returns (result: seq<string>)
    ensures result == RemoveFrom(lines, MarksOf(lines), 0, resolution)
  {
    ghost var ms := MarksOf(lines);
    result := [];
    var i := 0;
    assert result + RemoveFrom(lines, ms, i, resolution) == RemoveFrom(lines, ms, 0, resolution);
    while i < |lines|
      invariant 0 <= i <= |lines| + 1
      invariant result + RemoveFrom(lines, ms, i, resolution) == RemoveFrom(lines, ms, 0, resolution)
      decreases |lines| + 1 - i
    {
      var m := MarkerGroup(lines[i], '<');
      if m.Some? {
        var block := ReadBlock(lines, i + 1);
        if block.Some? {
          var bl := block.value;
          ghost var before := result;
          result := ExtendResolved(result, bl, resolution);
          RemoveAfterBlock(lines, ms, i, bl, resolution, before, result);
          i := bl.endLine;
        } else {
          RemoveFromOpen(lines, ms, i, resolution);
          i := |lines|;
        }
      } else {
        RemoveFromPlain(lines, ms, i, resolution);
        AppendAssoc(result, [lines[i]], RemoveFrom(lines, ms, i + 1, resolution));
        result := result + [lines[i]];
      }
      i := i + 1;
    }
  }

  /** The lines from `from` up to the first start marker (all of them when there is none). */
  function CopyUntilStart(lines: seq<string>, ms: seq<Marks>, from: nat): seq<string>
    requires |ms| == |lines|
    decreases |lines| - from
  {
    if from >= |lines| || ms[from].start.Some? then [] else [lines[from]] + CopyUntilStart(lines, ms, from + 1)
  }

  /** The parsed conflicts substituted into the lines: the text outside blocks, each block by its pick. */
  function Stitch(lines: seq<string>, ms: seq<Marks>, cs: seq<ParsedConflict>, from: nat, resolution: ConflictResolution)
    : seq<string>
    requires |ms| == |lines|
    decreases |cs|
  {
    if cs == [] then CopyUntilStart(lines, ms, from)
    else
      (if from <= cs[0].startLine <= |lines| then lines[from..cs[0].startLine] else [])
      + Pick(cs[0].leftLines, cs[0].baseLines, cs[0].rightLines, resolution)
      + Stitch(lines, ms, cs[1..], cs[0].endLine + 1, resolution)
  }

  /** Substitution of a first conflict: the gap before it, its pick, then the rest. */
  lemma StitchCons(lines: seq<string>, ms: seq<Marks>, c: ParsedConflict, rest: seq<ParsedConflict>, from: nat,
                   resolution: ConflictResolution)
    requires |ms| == |lines| && from <= c.startLine <= |lines|
    ensures Stitch(lines, ms, [c] + rest, from, resolution)
      == lines[from..c.startLine] + Pick(c.leftLines, c.baseLines, c.rightLines, resolution)
         + Stitch(lines, ms, rest, c.endLine + 1, resolution)
  {
    assert ([c] + rest)[0] == c && ([c] + rest)[1..] == rest;
  }

  /** The substitution step at a line outside any block. */
  lemma StitchPlain(lines: seq<string>, ms: seq<Marks>, i: nat, resolution: ConflictResolution)
    requires |ms| == |lines| && Consistent(ms) && i < |lines| && ms[i].start.None?
    requires RemoveFrom(lines, ms, i + 1, resolution) == Stitch(lines, ms, ParseFrom(lines, ms, i + 1), i + 1, resolution)
    ensures RemoveFrom(lines, ms, i, resolution) == Stitch(lines, ms, ParseFrom(lines, ms, i), i, resolution)
  {
    ParseFromProps(lines, ms, i + 1);
    var cs := ParseFrom(lines, ms, i + 1);
    assert ParseFrom(lines, ms, i) == cs;
    assert RemoveFrom(lines, ms, i, resolution) == [lines[i]] + Stitch(lines, ms, cs, i + 1, resolution);
    if cs != [] {
      assert WellParsed(lines, ms, cs[0]);
      var p := Pick(cs[0].leftLines, cs[0].baseLines, cs[0].rightLines, resolution);
      var t := Stitch(lines, ms, cs[1..], cs[0].endLine + 1, resolution);
      var gap := lines[i + 1..cs[0].startLine];
      assert lines[i..cs[0].startLine] == [lines[i]] + gap;
      assert Stitch(lines, ms, cs, i + 1, resolution) == gap + p + t;
      assert Stitch(lines, ms, cs, i, resolution) == ([lines[i]] + gap) + p + t;
      AppendAssoc([lines[i]], gap + p, t);
      AppendAssoc([lines[i]], gap, p);
    }
  }

  /** The substitution step at a line that opens a closed block. */
  lemma StitchBlock(lines: seq<string>, ms: seq<Marks>, i: nat, g: string, bl: Block, resolution: ConflictResolution)
    requires |ms| == |lines| && i < |lines| && ms[i].start == Some(g)
    requires ScanBlock(lines, ms, i + 1, LeftSection, [], [], []) == Some(bl)
    requires RemoveFrom(lines, ms, bl.endLine + 1, resolution)
             == Stitch(lines, ms, ParseFrom(lines, ms, bl.endLine + 1), bl.endLine + 1, resolution)
    ensures RemoveFrom(lines, ms, i, resolution) == Stitch(lines, ms, ParseFrom(lines, ms, i), i, resolution)
  {
    StitchAtBlock(lines, ms, i, g, bl, resolution);
    RemoveFromBlock(lines, ms, i, bl, resolution);
  }

  /** Substituting the conflicts parsed from an opening line: the block's pick, then the rest. */
  lemma StitchAtBlock(lines: seq<string>, ms: seq<Marks>, i: nat, g: string, bl: Block, resolution: ConflictResolution)
    requires |ms| == |lines| && i < |lines| && ms[i].start == Some(g)
    requires ScanBlock(lines, ms, i + 1, LeftSection, [], [], []) == Some(bl)
    ensures Stitch(lines, ms, ParseFrom(lines, ms, i), i, resolution)
      == Pick(bl.left, bl.base, bl.right, resolution)
         + Stitch(lines, ms, ParseFrom(lines, ms, bl.endLine + 1), bl.endLine + 1, resolution)
  {
    var c := ParsedConflict(i, bl.endLine, bl.left, bl.base, bl.right, g, bl.rightLabel);
    ParseFromBlock(lines, ms, i, g, bl);
    StitchCons(lines, ms, c, ParseFrom(lines, ms, bl.endLine + 1), i, resolution);
    EmptyGap(lines, i, Pick(bl.left, bl.base, bl.right, resolution));
  }

  lemma EmptyGap(lines: seq<string>, i: nat, p: seq<string>)
    requires i <= |lines|
    ensures lines[i..i] + p == p
  {
  }

  /**
   * `remove_conflict_markers` is `parse_conflicts` followed by substitution:
   * every line outside a block is copied in order, every parsed block becomes
   * the lines the resolution picks from it, and an unterminated block drops
   * the rest of the input.
   */
  lemma {:induction false} RemoveIsStitch(lines: seq<string>, ms: seq<Marks>, i: nat, resolution: ConflictResolution)
    requires |ms| == |lines| && Consistent(ms)
    ensures RemoveFrom(lines, ms, i, resolution) == Stitch(lines, ms, ParseFrom(lines, ms, i), i, resolution)
    decreases |lines| - i
  {
    if i < |lines| {
      match ms[i].start
      case None =>
        RemoveIsStitch(lines, ms, i + 1, resolution);
        StitchPlain(lines, ms, i, resolution);
      case Some(g) =>
        match ScanBlock(lines, ms, i + 1, LeftSection, [], [], [])
        case None =>
        case Some(bl) =>
          RemoveIsStitch(lines, ms, bl.endLine + 1, resolution);
          StitchBlock(lines, ms, i, g, bl, resolution);
    }
  }

  /** Input without an opening marker comes back unchanged and holds no conflict. */
  lemma {:induction false} RemoveWithoutMarkers(lines: seq<string>, ms: seq<Marks>, i: nat, resolution: ConflictResolution)
    requires |ms| == |lines| && i <= |lines|
    requires forall j :: i <= j < |lines| ==> ms[j].start.None?
    ensures RemoveFrom(lines, ms, i, resolution) == lines[i..]
    ensures ParseFrom(lines, ms, i) == []
    decreases |lines| - i
  {
    if i < |lines| {
      RemoveWithoutMarkers(lines, ms, i + 1, resolution);
      assert lines[i..] == [lines[i]] + lines[i + 1..];
    }
  }

  /** The classification of real lines is consistent, so the lemmas above apply to `MarksOf`. */
  lemma MarksOfConsistent(lines: seq<string>)
    ensures Consistent(MarksOf(lines))
  {
  }

  // ---------------------------------------------------------------- AutoMerger

  /**
   * The automatic merger: its two switches and the custom resolvers, each a
   * function from a conflict to replacement lines or None.
   */
  datatype AutoMerger = AutoMerger(autoResolveWhitespace: bool, autoResolveIdentical: bool,
                                   customResolvers: seq<MergeConflict -> Option<seq<string>>>)

  /** The first custom resolver's answer that is not None. */
  function FirstCustom(resolvers: seq<MergeConflict -> Option<seq<string>>>, c: MergeConflict)
    : (r: Option<seq<string>>)
    ensures r.None? <==> forall k :: 0 <= k < |resolvers| ==> resolvers[k](c).None?
    ensures r.Some? ==>
      exists k :: 0 <= k < |resolvers| && resolvers[k](c) == r && forall j :: 0 <= j < k ==> resolvers[j](c).None?
  {
    if resolvers == [] then None
    else if resolvers[0](c).Some? then resolvers[0](c)
    else
      var r := FirstCustom(resolvers[1..], c);
      assert forall k :: 1 <= k < |resolvers| ==> resolvers[1..][k - 1] == resolvers[k];
      assert r.Some? ==>
        exists k :: 1 <= k < |resolvers| && resolvers[k](c) == r && forall j :: 0 <= j < k ==> resolvers[j](c).None? by {
        if r.Some? {
          var k :| 0 <= k < |resolvers[1..]| && resolvers[1..][k](c) == r
            && forall j :: 0 <= j < k ==> resolvers[1..][j](c).None?;
          assert resolvers[k + 1](c) == r;
        }
      }
      r
  }

  /** Sides equal after `rstrip` (whitespace switch) or exactly (identical switch). */
  predicate SidesMatch(m: AutoMerger, c: MergeConflict)
  {
    (m.autoResolveWhitespace && RStripAll(c.leftLines) == RStripAll(c.rightLines))
    || (m.autoResolveIdentical && c.leftLines == c.rightLines)
  }

  /** `_try_resolve_conflict`. */
  function TryResolveConflict(m: AutoMerger, c: MergeConflict): (r: Option<(ConflictResolution, seq<string>)>)
    ensures SidesMatch(m, c) ==> r == Some((UseLeft, []))
    ensures !SidesMatch(m, c) ==>
      (r.Some? <==> FirstCustom(m.customResolvers, c).Some?)
      && (r.Some? ==> r.value == (Custom, FirstCustom(m.customResolvers, c).value))
  {
    if m.autoResolveWhitespace && RStripAll(c.leftLines) == RStripAll(c.rightLines) then Some((UseLeft, []))
    else if m.autoResolveIdentical && c.leftLines == c.rightLines then Some((UseLeft, []))
    else match FirstCustom(m.customResolvers, c)
      case Some(lines) => Some((Custom, lines))
      case None => None
  }

  /** `AutoMerger._try_resolve_conflict`, with its loop over the custom resolvers. */
  method TryResolve(m: AutoMerger, c: MergeConflict) returns (r: Option<(ConflictResolution, seq<string>)>)
    ensures r == TryResolveConflict(m, c)
  {
    if m.autoResolveWhitespace {
      var leftStripped := RStripAll(c.leftLines);
      var rightStripped := RStripAll(c.rightLines);
      if leftStripped == rightStripped {
        return Some((UseLeft, []));
      }
    }
    if m.autoResolveIdentical {
      if c.leftLines == c.rightLines {
        return Some((UseLeft, []));
      }
    }
    var k := 0;
    while k < |m.customResolvers|
      invariant 0 <= k <= |m.customResolvers|
      invariant FirstCustom(m.customResolvers, c) == FirstCustom(m.customResolvers[k..], c)
    {
      var resolvedLines := m.customResolvers[k](c);
      assert m.customResolvers[k..][0] == m.customResolvers[k];
      if resolvedLines.Some? {
        return Some((Custom, resolvedLines.value));
      }
      assert m.customResolvers[k..][1..] == m.customResolvers[k + 1..];
      k := k + 1;
    }
    return None;
  }

  /** Identical sides always match under the whitespace switch too. */
  lemma IdenticalMatchesWhitespace(m: AutoMerger, c: MergeConflict)
    requires m.autoResolveWhitespace && c.leftLines == c.rightLines
    ensures TryResolveConflict(m, c) == Some((UseLeft, []))
  {
  }

  /**
   * `try_auto_resolve` from the k-th conflict of the original result on:
   * conflicts that already carry a resolution are skipped, each other one that
   * the merger can resolve is applied to the current result with the default
   * engine, and a failing application propagates its error.
   */
  function AutoResolveFrom(m: AutoMerger, cs: seq<MergeConflict>, k: nat, current: MergeResult, count: nat)
    : Result<(MergeResult, nat)>
    requires k <= |cs|
    decreases |cs| - k
  {
    if k == |cs| then Ok((current, count))
    else if cs[k].resolution.Some? then AutoResolveFrom(m, cs, k + 1, current, count)
    else match TryResolveConflict(m, cs[k])
      case None => AutoResolveFrom(m, cs, k + 1, current, count)
      case Some((res, lines)) =>
        match ApplySpec(NewEngine(Manual), current, cs[k].conflictId, res, if res == Custom then Some(lines) else None)
        case Err(msg) => Err(msg)
        case Ok(next) => AutoResolveFrom(m, cs, k + 1, next, count + 1)
  }

  /** The step at a conflict the merger resolves: the applied result carries on, or its error is returned. */
  lemma AutoResolveApplied(m: AutoMerger, cs: seq<MergeConflict>, k: nat, current: MergeResult, count: nat,
                           res: ConflictResolution, lines: seq<string>)
    requires k < |cs| && cs[k].resolution.None? && TryResolveConflict(m, cs[k]) == Some((res, lines))
    ensures var applied := ApplySpec(NewEngine(Manual), current, cs[k].conflictId, res,
                                     if res == Custom then Some(lines) else None);
      AutoResolveFrom(m, cs, k, current, count)
      == (if applied.Err? then Err(applied.error) else AutoResolveFrom(m, cs, k + 1, applied.value, count + 1))
  {
  }

  /** `AutoMerger.try_auto_resolve`. */
  method TryAutoResolve(m: AutoMerger, result: MergeResult) returns (out: Result<(MergeResult, nat)>)
    ensures out == AutoResolveFrom(m, result.conflicts, 0, result, 0)
  {
    var engine := NewEngine(Manual);
    var resolvedCount := 0;
    var current := result;
    var k := 0;
    while k < |result.conflicts|
      invariant 0 <= k <= |result.conflicts|
      invariant AutoResolveFrom(m, result.conflicts, k, current, resolvedCount)
                == AutoResolveFrom(m, result.conflicts, 0, result, 0)
    {
      var conflict := result.conflicts[k];
      if conflict.resolution.None? {
        var resolution := TryResolve(m, conflict);
        if resolution.Some? {
          var (resolutionType, resolvedLines) := resolution.value;
          var applied := ApplyResolution(engine, current, conflict.conflictId, resolutionType,
                                         if resolutionType == Custom then Some(resolvedLines) else None);
          AutoResolveApplied(m, result.conflicts, k, current, resolvedCount, resolutionType, resolvedLines);
          if applied.Err? {
            return Err(applied.error);
          }
          current := applied.value;
          resolvedCount := resolvedCount + 1;
        }
      }
      k := k + 1;
    }
    out := Ok((current, resolvedCount));
  }

  /** The conflicts from `k` on that `try_auto_resolve` would try: unresolved and resolvable. */
  function Attempted(m: AutoMerger, cs: seq<MergeConflict>, k: nat): (n: nat)
    requires k <= |cs|
    ensures n <= |cs| - k
    decreases |cs| - k
  {
    if k == |cs| then 0
    else (if cs[k].resolution.None? && TryResolveConflict(m, cs[k]).Some? then 1 else 0) + Attempted(m, cs, k + 1)
  }

  /**
   * On success the count is exactly the number of unresolved conflicts the
   * merger could resolve, so conflicts already carrying a resolution are
   * never counted; when there are none the result comes back untouched.
   */
  lemma {:induction false} AutoResolveCount(m: AutoMerger, cs: seq<MergeConflict>, k: nat, current: MergeResult, count: nat)
    requires k <= |cs|
    ensures AutoResolveFrom(m, cs, k, current, count).Ok? ==>
      AutoResolveFrom(m, cs, k, current, count).value.1 == count + Attempted(m, cs, k)
    ensures Attempted(m, cs, k) == 0 ==> AutoResolveFrom(m, cs, k, current, count) == Ok((current, count))
    decreases |cs| - k
  {
    if k < |cs| {
      if cs[k].resolution.Some? || TryResolveConflict(m, cs[k]).None? {
        AutoResolveCount(m, cs, k + 1, current, count);
      } else {
        var (res, lines) := TryResolveConflict(m, cs[k]).value;
        var applied: Result<MergeResult> := ApplySpec(NewEngine(Manual), current, cs[k].conflictId, res,
                                                      if res == Custom then Some(lines) else None);
        if applied.Ok? {
          AutoResolveCount(m, cs, k + 1, applied.value, count + 1);
        }
      }
    }
  }
}
