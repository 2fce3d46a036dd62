/**
 * The search widget's logic: the result of a search and navigation through
 * its matches, the most-recently-used search history, picking the current
 * match, finding the next and previous match from a cursor position, and
 * the plain-text highlighter with its whole-word test.
 */
module Search {
  import opened Wrappers
  import opened TextUtil

  // ---------------------------------------------------------------- SearchMatch / SearchResult

  /** One match: character offsets in the document, 1-based line and column. */
  datatype SearchMatch = SearchMatch(start: int, end: int, line: int, column: int, text: string, panel: string)

  /** The matches of one search and the index of the current one (-1 for none). */
  datatype SearchResult = SearchResult(matches: seq<SearchMatch>, currentIndex: int, searchTerm: string)

  /** `SearchResult()`. */
  const EmptyResult := SearchResult([], -1, "")

  /** `current_match`: the match at the current index, when that index is in range. */
  function CurrentMatch(r: SearchResult): (m: Option<SearchMatch>)
    ensures m.Some? <==> 0 <= r.currentIndex < |r.matches|
    ensures m.Some? ==> m.value == r.matches[r.currentIndex]
  {
    if 0 <= r.currentIndex < |r.matches| then Some(r.matches[r.currentIndex]) else None
  }

  /**
   * `next_index`: -1 without matches; one on, past the end going back to the
   * first match when wrapping and staying on the last one otherwise.
   */
  function NextIndex(r: SearchResult, wrap: bool): (i: int)
    ensures r.matches == [] ==> i == -1
    ensures r.matches != [] ==> 0 <= i < |r.matches| || (i == r.currentIndex + 1 && i < 0)
    ensures r.matches != [] && r.currentIndex + 1 < |r.matches| ==> i == r.currentIndex + 1
    ensures r.matches != [] && r.currentIndex + 1 >= |r.matches| ==>
      i == if wrap then 0 else |r.matches| - 1
  {
    if r.matches == [] then -1
    else if r.currentIndex + 1 >= |r.matches| then (if wrap then 0 else |r.matches| - 1)
    else r.currentIndex + 1
  }

  /**
   * `prev_index`: -1 without matches; one back, before the start going to the
   * last match when wrapping and staying on the first one otherwise.
   */
  function PrevIndex(r: SearchResult, wrap: bool): (i: int)
    ensures r.matches == [] ==> i == -1
    ensures r.matches != [] && r.currentIndex - 1 >= 0 ==> i == r.currentIndex - 1
    ensures r.matches != [] && r.currentIndex - 1 < 0 ==>
      i == if wrap then |r.matches| - 1 else 0
  {
    if r.matches == [] then -1
    else if r.currentIndex - 1 < 0 then (if wrap then |r.matches| - 1 else 0)
    else r.currentIndex - 1
  }

  /** With wrapping, from a valid index both steps move cyclically through the matches. */
  lemma WrapIsCyclic(r: SearchResult)
    requires 0 <= r.currentIndex < |r.matches|
    ensures NextIndex(r, true) == (r.currentIndex + 1) % |r.matches|
    ensures PrevIndex(r, true) == (r.currentIndex - 1 + |r.matches|) % |r.matches|
  {
    var n, c := |r.matches|, r.currentIndex;
    if c + 1 < n {
      ModInRange(c + 1, n);
    } else {
      ModInRange(0, n);
      ModShift(0, n);
    }
    if c >= 1 {
      ModShift(c - 1, n);
    } else {
      ModInRange(n - 1, n);
    }
  }

  lemma ModInRange(a: int, n: int)
    requires 0 <= a < n
    ensures a % n == a
  {
  }

  lemma ModShift(a: int, n: int)
    requires 0 <= a < n
    ensures (a + n) % n == a
  {
  }

  /** Stepping forward then back, or back then forward, returns to a valid index. */
  lemma NextPrevInverse(r: SearchResult)
    requires 0 <= r.currentIndex < |r.matches|
    ensures PrevIndex(r.(currentIndex := NextIndex(r, true)), true) == r.currentIndex
    ensures NextIndex(r.(currentIndex := PrevIndex(r, true)), true) == r.currentIndex
  {
  }

  /** Without wrapping both steps stay within a non-empty list of matches. */
  lemma NoWrapStaysInRange(r: SearchResult)
    requires r.matches != [] && -1 <= r.currentIndex < |r.matches|
    ensures 0 <= NextIndex(r, false) < |r.matches|
    ensures 0 <= PrevIndex(r, false) < |r.matches|
  {
  }

  // ---------------------------------------------------------------- SearchHistory

  /** `SearchHistory.MAX_HISTORY`. */
  const MaxHistory := 20

  /** The search history: the terms, most recent first. */
  class SearchHistory {
    var history: seq<string>

    /** A history holding the terms loaded from the settings store. */
    constructor (loaded: seq<string>)
      ensures history == loaded
    {
      history := loaded;
    }

    /**
     * `add`: an empty term changes nothing; any other term moves to the
     * front, once, and the list is cut to `MaxHistory` entries.
     */
    method Add(term: string)
      modifies this
      ensures term == [] ==> history == old(history)
      ensures term != [] ==> history == SliceTo(MoveToFront(old(history), term), MaxHistory)
    {
      if term == [] {
        return;
      }
      var h := history;
      if term in h {
        h := RemoveFirst(h, term);
      }
      h := [term] + h;
      history := SliceTo(h, MaxHistory);
    }

    /** `get_all`: a copy of the terms. */
    method GetAll() returns (terms: seq<string>)
      ensures terms == history
    {
      terms := history;
    }

    method Clear()
      modifies this
      ensures history == []
    {
      history := [];
    }
  }

  /**
   * After adding a non-empty term it is the most recent, the history holds at
   * most `MaxHistory` terms, the others keep their order, and a history
   * without repeats stays without them.
   */
  lemma HistoryAddProps(h: seq<string>, term: string)
    requires term != []
    ensures var r := SliceTo(MoveToFront(h, term), MaxHistory);
      && r[0] == term && |r| <= MaxHistory
      && r[1..] == RemoveFirst(h, term)[..|r| - 1]
      && (NoDuplicates(h) ==> NoDuplicates(r) && Count(r, term) == 1)
  {
    MoveToFrontTrimmed(h, term, MaxHistory);
  }

  // ---------------------------------------------------------------- SearchEngine

  /** Matches in document order: each starts after the previous one starts. */
  predicate Ordered(ms: seq<SearchMatch>)
  {
    forall i, j :: 0 <= i < j < |ms| ==> ms[i].start <= ms[j].start
  }

  /** `i` is the first match starting at or after `pos`. */
  predicate FirstFrom(ms: seq<SearchMatch>, pos: int, i: int)
  {
    0 <= i < |ms| && ms[i].start >= pos && forall j :: 0 <= j < i ==> ms[j].start < pos
  }

  /** The index `search` makes current: the first match from `pos`, else the first match. */
  predicate StartIndex(ms: seq<SearchMatch>, pos: int, i: int)
  {
    if ms == [] then i == -1
    else FirstFrom(ms, pos, i) || (i == 0 && forall j :: 0 <= j < |ms| ==> ms[j].start < pos)
  }

  /** There is just one index `search` can pick. */
  lemma StartIndexUnique(ms: seq<SearchMatch>, pos: int, i: int, k: int)
    requires StartIndex(ms, pos, i) && StartIndex(ms, pos, k)
    ensures i == k
  {
  }

  /** In document order, every match before the picked one starts before `pos`, every later one at or after it. */
  lemma StartIndexSplits(ms: seq<SearchMatch>, pos: int, i: int)
    requires Ordered(ms) && StartIndex(ms, pos, i) && FirstFrom(ms, pos, i)
    ensures forall j :: 0 <= j < |ms| ==> (ms[j].start >= pos <==> j >= i)
  {
  }

  /** `i` is the first match starting after `pos`. */
  predicate FirstAfter(ms: seq<SearchMatch>, pos: int, i: int)
  {
    0 <= i < |ms| && ms[i].start > pos && forall j :: 0 <= j < i ==> ms[j].start <= pos
  }

  /** `i` is the last match ending before `pos`. */
  predicate LastBefore(ms: seq<SearchMatch>, pos: int, i: int)
  {
    0 <= i < |ms| && ms[i].end < pos && forall j :: i < j < |ms| ==> ms[j].end >= pos
  }

  /**
   * The search engine, keeping the result of its last search. The document
   * itself is not modelled: `Search` receives the matches that
   * `_search_text` / `_search_regex` collected, in document order.
   */
  class SearchEngine {
    var lastResult: SearchResult

    constructor ()
      ensures lastResult == EmptyResult
    {
      lastResult := EmptyResult;
    }

    /**
     * `search`: an empty term gives an empty result and leaves the last
     * result as it was; otherwise the current index is the first match
     * starting at or after `startPos`, the first match if none does, and -1
     * without matches, and the result becomes the last result.
     */
    method Search(found: seq<SearchMatch>, term: string, startPos: int) returns (r: SearchResult)
      modifies this
      ensures term == [] ==> r == EmptyResult && lastResult == old(lastResult)
      ensures term != [] ==> r.matches == found && r.searchTerm == term && lastResult == r
      ensures term != [] ==> StartIndex(found, startPos, r.currentIndex)
    {
      if term == [] {
        return EmptyResult;
      }
      var current := 0;
      var i := 0;
      while i < |found|
        invariant 0 <= i <= |found|
        invariant current == 0
        invariant forall j :: 0 <= j < i ==> found[j].start < startPos
      {
        if found[i].start >= startPos {
          current := i;
          break;
        }
        i := i + 1;
      }
      r := SearchResult(found, if found != [] then current else -1, term);
      lastResult := r;
    }

    /**
     * `find_next`: the first match of the last search starting after `pos`;
     * if there is none, the first match when wrapping, else nothing.
     */
    method FindNext(pos: int, wrapAround: bool) returns (m: Option<SearchMatch>)
      ensures var ms := lastResult.matches;
        && (ms == [] ==> m == None)
        && (forall i :: FirstAfter(ms, pos, i) ==> m == Some(ms[i]))
        && ((forall j :: 0 <= j < |ms| ==> ms[j].start <= pos) ==>
              m == if wrapAround && ms != [] then Some(ms[0]) else None)
    {
      var ms := lastResult.matches;
      if ms == [] {
        return None;
      }
      var i := 0;
      while i < |ms|
        invariant 0 <= i <= |ms|
        invariant forall j :: 0 <= j < i ==> ms[j].start <= pos
      {
        if ms[i].start > pos {
          assert FirstAfter(ms, pos, i);
          FirstAfterUnique(ms, pos, i);
          return Some(ms[i]);
        }
        i := i + 1;
      }
      NoneAfter(ms, pos);
      if wrapAround {
        return Some(ms[0]);
      }
      return None;
    }

    /**
     * `find_prev`: the last match of the last search ending before `pos`;
     * if there is none, the last match when wrapping, else nothing.
     */
    method FindPrev(pos: int, wrapAround: bool) returns (m: Option<SearchMatch>)
      ensures var ms := lastResult.matches;
        && (ms == [] ==> m == None)
        && (forall i :: LastBefore(ms, pos, i) ==> m == Some(ms[i]))
        && ((forall j :: 0 <= j < |ms| ==> ms[j].end >= pos) ==>
              m == if wrapAround && ms != [] then Some(ms[|ms| - 1]) else None)
    {
      var ms := lastResult.matches;
      if ms == [] {
        return None;
      }
      var i := |ms|;
      while i > 0
        invariant 0 <= i <= |ms|
        invariant forall j :: i <= j < |ms| ==> ms[j].end >= pos
      {
        if ms[i - 1].end < pos {
          assert LastBefore(ms, pos, i - 1);
          LastBeforeUnique(ms, pos, i - 1);
          return Some(ms[i - 1]);
        }
        i := i - 1;
      }
      NoneBefore(ms, pos);
      if wrapAround {
        return Some(ms[|ms| - 1]);
      }
      return None;
    }
  }

  lemma FirstAfterUnique(ms: seq<SearchMatch>, pos: int, i: int)
    requires FirstAfter(ms, pos, i)
    ensures forall k :: FirstAfter(ms, pos, k) ==> k == i
  {
  }

  lemma NoneAfter(ms: seq<SearchMatch>, pos: int)
    requires forall j :: 0 <= j < |ms| ==> ms[j].start <= pos
    ensures forall k :: !FirstAfter(ms, pos, k)
  {
  }

  lemma LastBeforeUnique(ms: seq<SearchMatch>, pos: int, i: int)
    requires LastBefore(ms, pos, i)
    ensures forall k :: LastBefore(ms, pos, k) ==> k == i
  {
  }

  lemma NoneBefore(ms: seq<SearchMatch>, pos: int)
    requires forall j :: 0 <= j < |ms| ==> ms[j].end >= pos
    ensures forall k :: !LastBefore(ms, pos, k)
  {
  }

  // ---------------------------------------------------------------- MatchHighlighter

  /** `c.isalnum() or c == '_'`, on ASCII. */
  predicate IsWordChar(c: char)
  {
    IsAsciiAlnum(c) || c == '_'
  }

  /** `_is_whole_word`: the span at `index` of `length` characters is not inside a longer word. */
  function IsWholeWord(text: string, index: int, length: int): (b: bool)
    requires 0 <= index <= |text| && length >= 0
    ensures b <==> ((index == 0 || !IsWordChar(text[index - 1]))
                    && (index + length >= |text| || !IsWordChar(text[index + length])))
  {
    if index > 0 && IsWordChar(text[index - 1]) then false
    else index + length < |text| && IsWordChar(text[index + length]) ==> false
  }

  /** `needle` occurs in `s` at `i`. */
  predicate OccursAt(s: string, needle: string, i: int)
  {
    0 <= i && i + |needle| <= |s| && forall j :: 0 <= j < |needle| ==> s[i + j] == needle[j]
  }

  /** `s.find(needle, start)` for a non-empty needle: the position of an occurrence from `start`, or -1. */
  function FindFrom(s: string, needle: string, start: nat): (r: int)
    requires needle != []
    ensures r == -1 || (start <= r && r + |needle| <= |s|)
    decreases |s| - start
  {
    if start + |needle| > |s| then -1
    else if OccursAt(s, needle, start) then start
    else FindFrom(s, needle, start + 1)
  }

  /** `find` gives the first occurrence from `start`, and -1 only when there is none. */
  lemma {:induction false} FindFromSpec(s: string, needle: string, start: nat)
    requires needle != []
    ensures var r := FindFrom(s, needle, start);
      && (r == -1 || OccursAt(s, needle, r))
      && (r == -1 ==> forall i :: start <= i ==> !OccursAt(s, needle, i))
      && (r != -1 ==> forall i :: start <= i < r ==> !OccursAt(s, needle, i))
    decreases |s| - start
  {
    if start + |needle| <= |s| && !OccursAt(s, needle, start) {
      FindFromSpec(s, needle, start + 1);
    }
  }

  /** One `setFormat` call: a span of the block and whether it is the current match. */
  datatype Format = Format(index: int, length: int, current: bool)

  /**
   * The spans `_highlight_text` marks on a block: `marked` followed by those
   * the scan finds from `start` on. The term is looked up in `key`, the
   * block as the scan compares it; the whole-word test reads `text`.
   */
  function Highlights(text: string, key: string, term: string, wholeWord: bool,
                      blockStart: int, currentStart: Option<int>, start: nat, marked: seq<Format>): seq<Format>
    requires term != [] && |key| == |text|
    decreases |text| - start
  {
    var index := FindFrom(key, term, start);
    if index == -1 then marked
    else if wholeWord && !IsWholeWord(text, index, |term|) then
      Highlights(text, key, term, wholeWord, blockStart, currentStart, index + 1, marked)
    else
      Highlights(text, key, term, wholeWord, blockStart, currentStart, index + |term|,
                 marked + [Format(index, |term|, currentStart == Some(blockStart + index))])
  }

  /** The scan only appends: what was marked stays, in front. */
  lemma {:induction false} HighlightsExtend(text: string, key: string, term: string, wholeWord: bool,
                                            blockStart: int, currentStart: Option<int>, start: nat, marked: seq<Format>)
    requires term != [] && |key| == |text|
    ensures |Highlights(text, key, term, wholeWord, blockStart, currentStart, start, marked)| >= |marked|
    ensures Highlights(text, key, term, wholeWord, blockStart, currentStart, start, marked)[..|marked|] == marked
    decreases |text| - start
  {
    var index := FindFrom(key, term, start);
    if index != -1 {
      if wholeWord && !IsWholeWord(text, index, |term|) {
        HighlightsExtend(text, key, term, wholeWord, blockStart, currentStart, index + 1, marked);
      } else {
        var more := marked + [Format(index, |term|, currentStart == Some(blockStart + index))];
        HighlightsExtend(text, key, term, wholeWord, blockStart, currentStart, index + |term|, more);
        assert more[..|marked|] == marked;
      }
    }
  }

  /** A span the highlighter may mark: an occurrence of the term at or after `start` that passes the whole-word test if asked. */
  predicate MarkOk(text: string, key: string, term: string, wholeWord: bool,
                   blockStart: int, currentStart: Option<int>, start: nat, f: Format)
    requires |key| == |text|
  {
    start <= f.index && OccursAt(key, term, f.index) && f.length == |term|
    && (wholeWord ==> IsWholeWord(text, f.index, |term|))
    && (f.current <==> currentStart == Some(blockStart + f.index))
  }

  /** Every span in `fs` is one the highlighter may mark from `start`. */
  predicate AllMarksOk(text: string, key: string, term: string, wholeWord: bool,
                       blockStart: int, currentStart: Option<int>, start: nat, fs: seq<Format>)
    requires |key| == |text|
  {
    forall k :: 0 <= k < |fs| ==> MarkOk(text, key, term, wholeWord, blockStart, currentStart, start, fs[k])
  }

  /**
   * Every span marked lies at an occurrence of the term (in `key`) at or
   * after where the scan began, passes the whole-word test when that is on,
   * and is formatted as current exactly when it starts where the current
   * match does.
   */
  lemma {:induction false} HighlightsAreOccurrences(text: string, key: string, term: string, wholeWord: bool,
                                                    blockStart: int, currentStart: Option<int>,
                                                    from: nat, start: nat, marked: seq<Format>)
    requires term != [] && |key| == |text| && from <= start
    requires AllMarksOk(text, key, term, wholeWord, blockStart, currentStart, from, marked)
    ensures AllMarksOk(text, key, term, wholeWord, blockStart, currentStart, from,
                       Highlights(text, key, term, wholeWord, blockStart, currentStart, start, marked))
    decreases |text| - start
  {
    var index := FindFrom(key, term, start);
    FindFromSpec(key, term, start);
    if index != -1 {
      if wholeWord && !IsWholeWord(text, index, |term|) {
        HighlightsAreOccurrences(text, key, term, wholeWord, blockStart, currentStart, from, index + 1, marked);
      } else {
        var f := Format(index, |term|, currentStart == Some(blockStart + index));
        assert MarkOk(text, key, term, wholeWord, blockStart, currentStart, from, f);
        var more := marked + [f];
        assert AllMarksOk(text, key, term, wholeWord, blockStart, currentStart, from, more) by {
          forall k | 0 <= k < |more|
            ensures MarkOk(text, key, term, wholeWord, blockStart, currentStart, from, more[k])
          {
            if k < |marked| {
              assert more[k] == marked[k];
            }
          }
        }
        HighlightsAreOccurrences(text, key, term, wholeWord, blockStart, currentStart, from, index + |term|, more);
      }
    }
  }

  /** Each span ends at or before the next one starts. */
  predicate Disjoint(fs: seq<Format>)
  {
    forall k :: 0 < k < |fs| ==> fs[k - 1].index + fs[k - 1].length <= fs[k].index
  }

  /** The marked spans come in order and do not overlap. */
  lemma {:induction false} HighlightsDisjoint(text: string, key: string, term: string, wholeWord: bool,
                                              blockStart: int, currentStart: Option<int>, start: nat, marked: seq<Format>)
    requires term != [] && |key| == |text|
    requires Disjoint(marked) && (marked != [] ==> marked[|marked| - 1].index + marked[|marked| - 1].length <= start)
    ensures Disjoint(Highlights(text, key, term, wholeWord, blockStart, currentStart, start, marked))
    decreases |text| - start
  {
    var index := FindFrom(key, term, start);
    if index != -1 {
      if wholeWord && !IsWholeWord(text, index, |term|) {
        HighlightsDisjoint(text, key, term, wholeWord, blockStart, currentStart, index + 1, marked);
      } else {
        var more := marked + [Format(index, |term|, currentStart == Some(blockStart + index))];
        assert Disjoint(more) by {
          forall k | 0 < k < |more| ensures more[k - 1].index + more[k - 1].length <= more[k].index {
            if k < |marked| {
              assert more[k - 1] == marked[k - 1] && more[k] == marked[k];
            }
          }
        }
        HighlightsDisjoint(text, key, term, wholeWord, blockStart, currentStart, index + |term|, more);
      }
    }
  }

  /**
   * Without the whole-word option the scan marks nothing more exactly when
   * the term does not occur from `start` on, and otherwise marks its first
   * occurrence next.
   */
  lemma HighlightsFirst(text: string, key: string, term: string,
                        blockStart: int, currentStart: Option<int>, start: nat, marked: seq<Format>)
    requires term != [] && |key| == |text|
    ensures var fs := Highlights(text, key, term, false, blockStart, currentStart, start, marked);
      (|fs| == |marked| <==> forall i :: start <= i ==> !OccursAt(key, term, i))
      && (|fs| > |marked| ==> fs[|marked|].index == FindFrom(key, term, start))
  {
    var index := FindFrom(key, term, start);
    FindFromSpec(key, term, start);
    if index != -1 {
      var f := Format(index, |term|, currentStart == Some(blockStart + index));
      var more := marked + [f];
      HighlightsExtend(text, key, term, false, blockStart, currentStart, index + |term|, more);
      var fs := Highlights(text, key, term, false, blockStart, currentStart, start, marked);
      assert fs[..|more|] == more;
      assert fs[|marked|] == fs[..|more|][|marked|];
    }
  }

  /**
   * Scanning a whole block: the spans are occurrences of the term, passing
   * the whole-word test when asked, in order and without overlap.
   */
  lemma BlockHighlights(text: string, key: string, term: string, wholeWord: bool,
                        blockStart: int, currentStart: Option<int>)
    requires term != [] && |key| == |text|
    ensures var fs := Highlights(text, key, term, wholeWord, blockStart, currentStart, 0, []);
      AllMarksOk(text, key, term, wholeWord, blockStart, currentStart, 0, fs) && Disjoint(fs)
  {
    HighlightsAreOccurrences(text, key, term, wholeWord, blockStart, currentStart, 0, 0, []);
    HighlightsDisjoint(text, key, term, wholeWord, blockStart, currentStart, 0, []);
  }

  /**
   * The highlighter of one document: the term and options it marks and the
   * match shown as current.
   */
  class MatchHighlighter {
    var searchTerm: string
    var caseSensitive: bool
    var wholeWord: bool
    var regex: bool
    var currentStart: Option<int>

    constructor ()
      ensures searchTerm == [] && !caseSensitive && !wholeWord && !regex && currentStart == None
    {
      searchTerm := [];
      caseSensitive := false;
      wholeWord := false;
      regex := false;
      currentStart := None;
    }

    /** `set_search_term`. */
    method SetSearchTerm(term: string, caseSensitive': bool, wholeWord': bool, regex': bool)
      modifies this
      ensures searchTerm == term && caseSensitive == caseSensitive' && wholeWord == wholeWord'
      ensures regex == regex' && currentStart == old(currentStart)
    {
      searchTerm := term;
      caseSensitive := caseSensitive';
      wholeWord := wholeWord';
      regex := regex';
    }

    /** `set_current_match`, keeping only the match's start, which is all the highlighter compares. */
    method SetCurrentMatch(m: Option<SearchMatch>)
      modifies this
      ensures currentStart == (if m.Some? then Some(m.value.start) else None)
      ensures searchTerm == old(searchTerm) && caseSensitive == old(caseSensitive)
      ensures wholeWord == old(wholeWord) && regex == old(regex)
    {
      currentStart := if m.Some? then Some(m.value.start) else None;
    }

    /** `clear_highlights`. */
    method ClearHighlights()
      modifies this
      ensures searchTerm == [] && currentStart == None
      ensures caseSensitive == old(caseSensitive) && wholeWord == old(wholeWord) && regex == old(regex)
    {
      searchTerm := [];
      currentStart := None;
    }

    /**
     * `highlightBlock` for plain-text search: the spans `_highlight_text`
     * marks on a block that starts at `blockStart`. An empty term marks
     * nothing; regular-expression search is not modelled and yields `None`.
     */
    method HighlightBlock(text: string, blockStart: int) returns (fs: Option<seq<Format>>)
      ensures searchTerm == [] ==> fs == Some([])
      ensures searchTerm != [] && regex ==> fs == None
      ensures searchTerm != [] && !regex ==> fs == Some(Highlights(text,
        if caseSensitive then text else Lower(text), if caseSensitive then searchTerm else Lower(searchTerm),
        wholeWord, blockStart, currentStart, 0, []))
    {
      if searchTerm == [] {
        return Some([]);
      }
      if regex {
        return None;
      }
      var marks := HighlightText(text, blockStart);
      return Some(marks);
    }

    /**
     * `_highlight_text`: compares the block and the term lower-cased unless
     * the search is case sensitive, then scans the block.
     */
    method HighlightText(text: string, blockStart: int) returns (fs: seq<Format>)
      requires searchTerm != []
      ensures fs == Highlights(text, if caseSensitive then text else Lower(text),
                               if caseSensitive then searchTerm else Lower(searchTerm),
                               wholeWord, blockStart, currentStart, 0, [])
    {
      var term := searchTerm;
      var key, termKey := text, term;
      if !caseSensitive {
        key, termKey := Lower(text), Lower(term);
      }
      fs := ScanBlock(text, key, termKey, wholeWord, blockStart, currentStart);
    }
  }

  /**
   * The loop of `_highlight_text`: each occurrence of the term from `start`
   * on is marked and the scan resumes right after it; a hit that fails the
   * whole-word test resumes one character on.
   */
  method ScanBlock(text: string, key: string, term: string, wholeWord: bool,
                   blockStart: int, currentStart: Option<int>) returns (fs: seq<Format>)
    requires term != [] && |key| == |text|
    ensures fs == Highlights(text, key, term, wholeWord, blockStart, currentStart, 0, [])
  {
    var n := |term|;
    fs := [];
    var start: nat := 0;
    while true
      invariant start <= |text|
      invariant Highlights(text, key, term, wholeWord, blockStart, currentStart, start, fs)
        == Highlights(text, key, term, wholeWord, blockStart, currentStart, 0, [])
      decreases |text| - start
    {
      var index := FindFrom(key, term, start);
      if index == -1 {
        break;
      }
      if wholeWord && !IsWholeWord(text, index, n) {
        start := index + 1;
        continue;
      }
      fs := fs + [Format(index, n, currentStart == Some(blockStart + index))];
      start := index + n;
    }
  }
}
