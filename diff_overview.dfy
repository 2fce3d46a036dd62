/**
 * The overview bar beside a comparison: it turns a diff result into hunks,
 * runs of consecutive changed positions of one type, and keeps the visible
 * viewport. Drawing and mouse handling are not modelled.
 */
module DiffOverview {
  import opened Wrappers
  import opened Models

  /** A changed position (a line-pair index or a byte offset) and its type. */
  datatype Marked = Marked(index: int, lineType: DiffLineType)

  /** `(start_idx, count, line_type)`: `count` positions from `start`, all of one type. */
  datatype Hunk = Hunk(start: int, count: int, lineType: DiffLineType)

  /** A rectangle of an image comparison, of which the bar uses the rows. */
  datatype ImageRegion = ImageRegion(y: int, height: int)

  /** What `set_diff_result` is given. */
  datatype OverviewSource =
    | NoResult
    | TextResult(result: DiffResult)
    | BinaryResult(binary: BinaryDiffResult)
    | ImageResult(leftHeight: int, rightHeight: int, regions: seq<ImageRegion>)

  // ---------------------------------------------------------------- changed positions

  /** The changed line pairs among the first `n`, with their indices, in order. */
  function ChangedIn(pairs: seq<LinePair>, n: nat): seq<Marked>
    requires n <= |pairs|
  {
    if n == 0 then []
    else
      var tail := if pairs[n - 1].pairType != DiffLineType.Unchanged then [Marked(n - 1, pairs[n - 1].pairType)] else [];
      ChangedIn(pairs, n - 1) + tail
  }

  /** Positions strictly increase. */
  predicate Increasing(lines: seq<Marked>)
  {
    forall k :: 0 < k < |lines| ==> lines[k - 1].index < lines[k].index
  }

  /**
   * Exactly the pairs that are not UNCHANGED are listed, each under its own
   * index and type, in increasing index order.
   */
  lemma {:induction false} ChangedInProps(pairs: seq<LinePair>, n: nat)
    requires n <= |pairs|
    ensures Increasing(ChangedIn(pairs, n))
    ensures forall k :: 0 <= k < |ChangedIn(pairs, n)| ==> 0 <= ChangedIn(pairs, n)[k].index < n
    ensures forall i, t :: Marked(i, t) in ChangedIn(pairs, n) <==>
      0 <= i < n && pairs[i].pairType == t && t != DiffLineType.Unchanged
  {
    if n > 0 {
      ChangedInProps(pairs, n - 1);
    }
  }

  /** The type the bar gives one byte difference. */
  function ByteMark(d: ByteDifference): (m: Marked)
    ensures m.index == d.offset
    ensures m.lineType == DiffLineType.Modified <==> d.IsModification()
    ensures m.lineType == DiffLineType.Added <==> d.IsAddition()
    ensures m.lineType == DiffLineType.Removed <==> !d.IsModification() && !d.IsAddition()
  {
    if d.IsModification() then Marked(d.offset, DiffLineType.Modified)
    else if d.IsAddition() then Marked(d.offset, DiffLineType.Added)
    else Marked(d.offset, DiffLineType.Removed)
  }

  /** Collects the changed pairs of a text result. */
  method CollectChanged(pairs: seq<LinePair>) returns (lines: seq<Marked>)
    ensures lines == ChangedIn(pairs, |pairs|)
  {
    lines := [];
    var i := 0;
    while i < |pairs|
      invariant 0 <= i <= |pairs|
      invariant lines == ChangedIn(pairs, i)
    {
      if pairs[i].pairType != DiffLineType.Unchanged {
        lines := lines + [Marked(i, pairs[i].pairType)];
      }
      i := i + 1;
    }
  }

  /** Collects one position per byte difference, in the order of the differences. */
  method CollectBytes(diffs: seq<ByteDifference>) returns (lines: seq<Marked>)
    ensures |lines| == |diffs|
    ensures forall k :: 0 <= k < |diffs| ==> lines[k] == ByteMark(diffs[k])
  {
    lines := [];
    var i := 0;
    while i < |diffs|
      invariant 0 <= i <= |diffs|
      invariant |lines| == i
      invariant forall k :: 0 <= k < i ==> lines[k] == ByteMark(diffs[k])
    {
      lines := lines + [ByteMark(diffs[i])];
      i := i + 1;
    }
  }

  /** One MODIFIED hunk per image region, over the region's rows. */
  method CollectRegions(regions: seq<ImageRegion>) returns (hunks: seq<Hunk>)
    ensures |hunks| == |regions|
    ensures forall k :: 0 <= k < |regions| ==> hunks[k] == Hunk(regions[k].y, regions[k].height, DiffLineType.Modified)
  {
    hunks := [];
    var i := 0;
    while i < |regions|
      invariant 0 <= i <= |regions|
      invariant |hunks| == i
      invariant forall k :: 0 <= k < i ==> hunks[k] == Hunk(regions[k].y, regions[k].height, DiffLineType.Modified)
    {
      hunks := hunks + [Hunk(regions[i].y, regions[i].height, DiffLineType.Modified)];
      i := i + 1;
    }
  }

  // ---------------------------------------------------------------- grouping

  /**
   * The grouping loop from position `i` on: `cur` is the open hunk, `closed`
   * the hunks already appended. A position one past the open hunk with its
   * type extends it; any other position closes it and opens a new one.
   */
  function GroupFrom(lines: seq<Marked>, i: nat, cur: Hunk, closed: seq<Hunk>): seq<Hunk>
    requires i <= |lines|
    decreases |lines| - i
  {
    if i == |lines| then closed + [cur]
    else if lines[i].index == cur.start + cur.count && lines[i].lineType == cur.lineType then
      GroupFrom(lines, i + 1, cur.(count := cur.count + 1), closed)
    else
      GroupFrom(lines, i + 1, Hunk(lines[i].index, 1, lines[i].lineType), closed + [cur])
  }

  /** The hunks of a list of changed positions. */
  function Group(lines: seq<Marked>): seq<Hunk>
  {
    if lines == [] then [] else GroupFrom(lines, 1, Hunk(lines[0].index, 1, lines[0].lineType), [])
  }

  /** The positions one hunk covers. */
  function Run(h: Hunk): seq<Marked>
  {
    seq(if h.count < 0 then 0 else h.count, k => Marked(h.start + k, h.lineType))
  }

  /** The positions a list of hunks covers, hunk after hunk. */
  function Expand(hs: seq<Hunk>): seq<Marked>
  {
    if hs == [] then [] else Expand(hs[..|hs| - 1]) + Run(hs[|hs| - 1])
  }

  function TotalCount(hs: seq<Hunk>): int
  {
    if hs == [] then 0 else TotalCount(hs[..|hs| - 1]) + hs[|hs| - 1].count
  }

  /** Every hunk covers at least one position. */
  predicate NonEmptyHunks(hs: seq<Hunk>)
  {
    forall k :: 0 <= k < |hs| ==> hs[k].count >= 1
  }

  /** No hunk could be extended by the next one: it starts elsewhere or has another type. */
  predicate Maximal(hs: seq<Hunk>)
  {
    forall k :: 0 < k < |hs| ==>
      !(hs[k].start == hs[k - 1].start + hs[k - 1].count && hs[k].lineType == hs[k - 1].lineType)
  }

  /** Hunks come in increasing start order and do not overlap. */
  predicate Ordered(hs: seq<Hunk>)
  {
    forall k :: 0 < k < |hs| ==> hs[k - 1].start + hs[k - 1].count <= hs[k].start
  }

  lemma ExpandSnoc(hs: seq<Hunk>, h: Hunk)
    ensures Expand(hs + [h]) == Expand(hs) + Run(h)
  {
    assert (hs + [h])[..|hs|] == hs;
  }

  lemma RunExtend(h: Hunk)
    requires h.count >= 0
    ensures Run(h.(count := h.count + 1)) == Run(h) + [Marked(h.start + h.count, h.lineType)]
  {
  }

  lemma ExtendStep(lines: seq<Marked>, i: nat, cur: Hunk, closed: seq<Hunk>)
    requires i < |lines| && cur.count >= 1 && Expand(closed) + Run(cur) == lines[..i]
    requires lines[i] == Marked(cur.start + cur.count, cur.lineType)
    ensures Expand(closed) + Run(cur.(count := cur.count + 1)) == lines[..i + 1]
  {
    RunExtend(cur);
    assert lines[..i + 1] == lines[..i] + [lines[i]];
  }

  lemma OpenStep(lines: seq<Marked>, i: nat, cur: Hunk, closed: seq<Hunk>)
    requires i < |lines| && Expand(closed) + Run(cur) == lines[..i]
    ensures Expand(closed + [cur]) + Run(Hunk(lines[i].index, 1, lines[i].lineType)) == lines[..i + 1]
  {
    ExpandSnoc(closed, cur);
    assert Run(Hunk(lines[i].index, 1, lines[i].lineType)) == [lines[i]];
    assert lines[..i + 1] == lines[..i] + [lines[i]];
  }

  /** The hunks cover exactly the positions grouped, in order. */
  lemma {:induction false} GroupFromExpands(lines: seq<Marked>, i: nat, cur: Hunk, closed: seq<Hunk>)
    requires 1 <= i <= |lines| && cur.count >= 1
    requires Expand(closed) + Run(cur) == lines[..i]
    ensures Expand(GroupFrom(lines, i, cur, closed)) == lines
    decreases |lines| - i
  {
    if i == |lines| {
      ExpandSnoc(closed, cur);
      assert lines[..i] == lines;
    } else if lines[i].index == cur.start + cur.count && lines[i].lineType == cur.lineType {
      ExtendStep(lines, i, cur, closed);
      GroupFromExpands(lines, i + 1, cur.(count := cur.count + 1), closed);
    } else {
      OpenStep(lines, i, cur, closed);
      GroupFromExpands(lines, i + 1, Hunk(lines[i].index, 1, lines[i].lineType), closed + [cur]);
    }
  }

  /** Grouping keeps every hunk non-empty and no two neighbours joinable. */
  lemma {:induction false} GroupFromMaximal(lines: seq<Marked>, i: nat, cur: Hunk, closed: seq<Hunk>)
    requires i <= |lines| && cur.count >= 1
    requires NonEmptyHunks(closed + [cur]) && Maximal(closed + [cur])
    ensures NonEmptyHunks(GroupFrom(lines, i, cur, closed)) && Maximal(GroupFrom(lines, i, cur, closed))
    decreases |lines| - i
  {
    if i < |lines| {
      if lines[i].index == cur.start + cur.count && lines[i].lineType == cur.lineType {
        var grown := cur.(count := cur.count + 1);
        var before, after := closed + [cur], closed + [grown];
        assert Maximal(after) by {
          forall k | 0 < k < |after|
            ensures !(after[k].start == after[k - 1].start + after[k - 1].count
                      && after[k].lineType == after[k - 1].lineType)
          {
            assert before[k - 1] == after[k - 1];
            assert before[k].start == after[k].start && before[k].lineType == after[k].lineType;
            assert !(before[k].start == before[k - 1].start + before[k - 1].count
                     && before[k].lineType == before[k - 1].lineType);
          }
        }
        assert NonEmptyHunks(closed + [grown]) by {
          forall k | 0 <= k < |closed + [grown]| ensures (closed + [grown])[k].count >= 1 {
            if k < |closed| {
              assert (closed + [cur])[k] == (closed + [grown])[k];
            }
          }
        }
        GroupFromMaximal(lines, i + 1, grown, closed);
      } else {
        var next := Hunk(lines[i].index, 1, lines[i].lineType);
        assert closed + [cur] + [next] == (closed + [cur]) + [next];
        GroupFromMaximal(lines, i + 1, next, closed + [cur]);
      }
    }
  }

  /** With increasing positions the hunks are in order and do not overlap. */
  lemma {:induction false} GroupFromOrdered(lines: seq<Marked>, i: nat, cur: Hunk, closed: seq<Hunk>)
    requires 1 <= i <= |lines| && Increasing(lines)
    requires cur.start + cur.count - 1 == lines[i - 1].index
    requires Ordered(closed + [cur])
    ensures Ordered(GroupFrom(lines, i, cur, closed))
    decreases |lines| - i
  {
    if i < |lines| {
      if lines[i].index == cur.start + cur.count && lines[i].lineType == cur.lineType {
        var grown := cur.(count := cur.count + 1);
        assert Ordered(closed + [grown]) by {
          forall k | 0 < k < |closed + [grown]|
            ensures (closed + [grown])[k - 1].start + (closed + [grown])[k - 1].count <= (closed + [grown])[k].start
          {
            assert (closed + [cur])[k - 1] == (closed + [grown])[k - 1];
            assert (closed + [cur])[k].start == (closed + [grown])[k].start;
          }
        }
        GroupFromOrdered(lines, i + 1, grown, closed);
      } else {
        var next := Hunk(lines[i].index, 1, lines[i].lineType);
        GroupFromOrdered(lines, i + 1, next, closed + [cur]);
      }
    }
  }

  /** The counts of hunks add up to the positions they cover. */
  lemma {:induction false} ExpandLength(hs: seq<Hunk>)
    requires NonEmptyHunks(hs)
    ensures |Expand(hs)| == TotalCount(hs)
  {
    if hs != [] {
      ExpandLength(hs[..|hs| - 1]);
    }
  }

  /**
   * The hunks of a list of positions cover exactly those positions, in
   * order; each is non-empty, no two neighbours could be joined, and with
   * increasing positions they are in order and disjoint.
   */
  lemma GroupProps(lines: seq<Marked>)
    ensures Expand(Group(lines)) == lines
    ensures TotalCount(Group(lines)) == |lines|
    ensures NonEmptyHunks(Group(lines)) && Maximal(Group(lines))
    ensures Increasing(lines) ==> Ordered(Group(lines))
  {
    if lines != [] {
      var cur := Hunk(lines[0].index, 1, lines[0].lineType);
      assert Run(cur) == lines[..1];
      GroupFromExpands(lines, 1, cur, []);
      GroupFromMaximal(lines, 1, cur, []);
      if Increasing(lines) {
        GroupFromOrdered(lines, 1, cur, []);
      }
      ExpandLength(Group(lines));
    }
  }

  /**
   * The grouping loop of `set_diff_result`: extends the open hunk while the
   * positions run on with one type, and appends it when they do not.
   */
  method GroupRuns(lines: seq<Marked>) returns (hunks: seq<Hunk>)
    ensures hunks == Group(lines)
  {
    hunks := [];
    if lines == [] {
      return;
    }
    var start, lineType, count := lines[0].index, lines[0].lineType, 1;
    var i := 1;
    while i < |lines|
      invariant 1 <= i <= |lines|
      invariant GroupFrom(lines, i, Hunk(start, count, lineType), hunks) == Group(lines)
    {
      if lines[i].index == start + count && lines[i].lineType == lineType {
        count := count + 1;
      } else {
        hunks := hunks + [Hunk(start, count, lineType)];
        start, lineType, count := lines[i].index, lines[i].lineType, 1;
      }
      i := i + 1;
    }
    hunks := hunks + [Hunk(start, count, lineType)];
  }

  // ---------------------------------------------------------------- the bar

  /** The number of rows the bar maps: pairs for text, the larger size for bytes and images, at least 1. */
  function TotalFor(src: OverviewSource): int
  {
    match src
    case NoResult => 0
    case TextResult(r) => |r.linePairs|
    case BinaryResult(b) =>
      var m := if b.leftSize >= b.rightSize then b.leftSize else b.rightSize;
      if m == 0 then 1 else m
    case ImageResult(lh, rh, _) =>
      var m := if lh >= rh then lh else rh;
      if m == 0 then 1 else m
  }

  /** The changed positions of a result that are grouped into hunks. */
  function MarksFor(src: OverviewSource): seq<Marked>
  {
    match src
    case TextResult(r) => ChangedIn(r.linePairs, |r.linePairs|)
    case BinaryResult(b) => seq(|b.differences|, k requires 0 <= k < |b.differences| => ByteMark(b.differences[k]))
    case _ => []
  }

  /** The hunks `set_diff_result` keeps: the image regions' rows, or the grouped changed positions. */
  function HunksFor(src: OverviewSource): seq<Hunk>
  {
    match src
    case ImageResult(_, _, regions) =>
      seq(|regions|, k requires 0 <= k < |regions| => Hunk(regions[k].y, regions[k].height, DiffLineType.Modified))
    case _ => Group(MarksFor(src))
  }

  /**
   * For a text result the hunks cover exactly the pairs that are not
   * UNCHANGED, in increasing order without overlap, and their counts add up
   * to the number of such pairs.
   */
  lemma TextHunks(r: DiffResult)
    ensures var hs := HunksFor(TextResult(r));
      && Expand(hs) == ChangedIn(r.linePairs, |r.linePairs|)
      && TotalCount(hs) == |ChangedIn(r.linePairs, |r.linePairs|)|
      && Ordered(hs) && Maximal(hs) && NonEmptyHunks(hs)
  {
    ChangedInProps(r.linePairs, |r.linePairs|);
    GroupProps(ChangedIn(r.linePairs, |r.linePairs|));
  }

  /** Without a result the bar is empty. */
  lemma NoResultEmpty()
    ensures HunksFor(NoResult) == [] && TotalFor(NoResult) == 0
  {
  }

  /** A binary result maps at least one row and marks each difference's offset with its type. */
  lemma BinaryHunks(b: BinaryDiffResult)
    ensures TotalFor(BinaryResult(b)) >= 1 || (b.leftSize < 0 && b.rightSize < 0)
    ensures Expand(HunksFor(BinaryResult(b))) == MarksFor(BinaryResult(b))
    ensures forall k :: 0 <= k < |b.differences| ==> MarksFor(BinaryResult(b))[k] == ByteMark(b.differences[k])
  {
    GroupProps(MarksFor(BinaryResult(b)));
  }

  /** The overview bar: the viewport, the number of rows it maps and the hunks it draws. */
  class DiffOverviewBar {
    var viewportStart: int
    var viewportCount: int
    var totalLines: int
    var diffHunks: seq<Hunk>

    constructor ()
      ensures viewportStart == 0 && viewportCount == 0 && totalLines == 0 && diffHunks == []
    {
      viewportStart, viewportCount, totalLines, diffHunks := 0, 0, 0, [];
    }

    /** `set_diff_result`: recomputes the rows and the hunks; the viewport stays. */
    method SetDiffResult(src: OverviewSource)
      modifies this
      ensures totalLines == TotalFor(src) && diffHunks == HunksFor(src)
      ensures viewportStart == old(viewportStart) && viewportCount == old(viewportCount)
    {
      diffHunks := [];
      totalLines := 0;
      if src.NoResult? {
        return;
      }
      var lines: seq<Marked> := [];
      match src {
        case TextResult(r) =>
          totalLines := |r.linePairs|;
          lines := CollectChanged(r.linePairs);
        case BinaryResult(b) =>
          totalLines := if b.leftSize >= b.rightSize then b.leftSize else b.rightSize;
          if totalLines == 0 {
            totalLines := 1;
          }
          lines := CollectBytes(b.differences);
          assert lines == MarksFor(src);
        case ImageResult(lh, rh, regions) =>
          totalLines := if lh >= rh then lh else rh;
          if totalLines == 0 {
            totalLines := 1;
          }
          diffHunks := CollectRegions(regions);
          assert diffHunks == HunksFor(src);
      }
      if lines != [] {
        diffHunks := GroupRuns(lines);
      }
    }

    /** `set_viewport`: the bar is repainted only when the start or the count changes. */
    method SetViewport(start: int, count: int) returns (repaint: bool)
      modifies this
      ensures repaint <==> old(viewportStart) != start || old(viewportCount) != count
      ensures viewportStart == start && viewportCount == count
      ensures totalLines == old(totalLines) && diffHunks == old(diffHunks)
    {
      repaint := viewportStart != start || viewportCount != count;
      if repaint {
        viewportStart := start;
        viewportCount := count;
      }
    }
  }
}
