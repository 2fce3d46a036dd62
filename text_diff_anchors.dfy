/**
 * The anchor-based diff algorithms of the text-diff engine: the longest
 * increasing subsequence used to order anchors, opcode assembly around
 * anchors, and the patience and histogram anchor choices. Gaps between
 * anchors are diffed by difflib's matcher, which is a parameter here.
 */
module TextDiffAnchors {
  import opened Wrappers
  import opened TextUtil
  import opened Opcodes

  // ---------------------------------------------------------------- longest increasing subsequence

  /**
   * `ix` lists positions of `s` in increasing order, the last of them below
   * `bound`, and the values of `s` at those positions strictly increase.
   */
  predicate IncreasingBelow(s: seq<int>, ix: seq<int>, bound: int)
  {
    (forall k :: 0 <= k < |ix| ==> 0 <= ix[k] < |s|)
    && (forall a, b :: 0 <= a < b < |ix| ==> ix[a] < ix[b] && s[ix[a]] < s[ix[b]])
    && (|ix| > 0 ==> ix[|ix| - 1] < bound)
  }

  /** `ix` is an increasing subsequence of `s`, given by its positions. */
  predicate IsIncreasingSubsequence(s: seq<int>, ix: seq<int>)
  {
    IncreasingBelow(s, ix, |s|)
  }

  /** `dp` strictly increases. */
  predicate StrictlySorted(dp: seq<int>)
  {
    forall a, b :: 0 <= a < b < |dp| ==> dp[a] < dp[b]
  }

  /**
   * For every increasing subsequence of the first `bound` values, its length
   * `L` is at most `|dp|` and `dp[L - 1]` is at most its last value: `dp[L - 1]`
   * is the smallest value an increasing subsequence of length `L` can end on.
   */
  ghost predicate DpBound(s: seq<int>, dp: seq<int>, bound: int)
  {
    forall ix {:trigger IncreasingBelow(s, ix, bound)} :: IncreasingBelow(s, ix, bound) && |ix| > 0 ==>
      |ix| <= |dp| && dp[|ix| - 1] <= s[ix[|ix| - 1]]
  }

  /**
   * The chain of `parent` links from position `j` is well formed: a chain of
   * length 1 ends at -1, and a longer one steps to an earlier position holding
   * a smaller value with a chain one shorter.
   */
  predicate ChainLink(s: seq<int>, parent: seq<int>, len: seq<nat>, j: int)
    requires 0 <= j < |s| && |parent| == |s| && |len| == |s|
  {
    (len[j] == 1 && parent[j] == -1)
    || (len[j] > 1 && 0 <= parent[j] < j && s[parent[j]] < s[j] && len[parent[j]] == len[j] - 1)
  }

  /**
   * Replacing `dp[lo]` by `s[i]` (or appending it), where `lo` is the first
   * entry not below `s[i]`, keeps `dp` sorted and extends the bound to
   * position `i`.
   */
  lemma DpStep(s: seq<int>, dp: seq<int>, i: int, lo: int, dp': seq<int>)
    requires 0 <= i < |s| && 0 <= lo <= |dp|
    requires StrictlySorted(dp) && DpBound(s, dp, i)
    requires forall k :: 0 <= k < lo ==> dp[k] < s[i]
    requires forall k :: lo <= k < |dp| ==> dp[k] >= s[i]
    requires dp' == if lo == |dp| then dp + [s[i]] else dp[lo := s[i]]
    ensures StrictlySorted(dp') && DpBound(s, dp', i + 1)
  {
    forall ix | IncreasingBelow(s, ix, i + 1) && |ix| > 0
      ensures |ix| <= |dp'| && dp'[|ix| - 1] <= s[ix[|ix| - 1]]
    {
      var L := |ix|;
      if ix[L - 1] < i {
        assert IncreasingBelow(s, ix, i);
      } else if L > 1 {
        var pre := ix[..L - 1];
        assert IncreasingBelow(s, pre, i);
        assert dp[L - 2] <= s[ix[L - 2]] < s[i];
      }
    }
  }

  /** `indices[k]` is where `dp[k]` came from, and the chain ending there has length `k + 1`. */
  predicate IndicesTrack(s: seq<int>, dp: seq<int>, indices: seq<int>, len: seq<nat>, i: int)
    requires |len| == |s|
  {
    |indices| == |dp|
    && forall k :: 0 <= k < |dp| ==>
         0 <= indices[k] < i && indices[k] < |s| && s[indices[k]] == dp[k] && len[indices[k]] == k + 1
  }

  /** Recording position `i` at entry `lo` keeps `indices` tracking `dp`. */
  lemma IndicesStep(s: seq<int>, dp: seq<int>, indices: seq<int>, len: seq<nat>, i: int, lo: int,
                    dp': seq<int>, indices': seq<int>, len': seq<nat>)
    requires 0 <= i < |s| && |len| == |s| && 0 <= lo <= |dp|
    requires IndicesTrack(s, dp, indices, len, i)
    requires dp' == if lo == |dp| then dp + [s[i]] else dp[lo := s[i]]
    requires indices' == if lo == |dp| then indices + [i] else indices[lo := i]
    requires len' == len[i := lo + 1]
    ensures IndicesTrack(s, dp', indices', len', i + 1)
  {
  }

  /** Linking position `i` to `p` (or to -1 for `p < 0`) with chain length `l` keeps every chain well formed. */
  lemma ChainStep(s: seq<int>, parent: seq<int>, len: seq<nat>, i: int, p: int, l: nat,
                  parent': seq<int>, len': seq<nat>)
    requires 0 <= i < |s| && |parent| == |s| && |len| == |s|
    requires forall j :: 0 <= j < i ==> ChainLink(s, parent, len, j)
    requires (p == -1 && l == 1) || (0 <= p < i && s[p] < s[i] && l > 1 && len[p] == l - 1)
    requires parent' == parent[i := p] && len' == len[i := l]
    ensures forall j :: 0 <= j < i + 1 ==> ChainLink(s, parent', len', j)
  {
    forall j | 0 <= j < i + 1
      ensures ChainLink(s, parent', len', j)
    {
      if j < i {
        assert ChainLink(s, parent, len, j);
      }
    }
  }

  /** `list(reversed(xs))`. */
  function Reversed<T>(xs: seq<T>): (r: seq<T>)
    ensures |r| == |xs|
    ensures forall k :: 0 <= k < |xs| ==> r[k] == xs[|xs| - 1 - k]
  {
    seq(|xs|, k requires 0 <= k < |xs| => xs[|xs| - 1 - k])
  }

  /** The binary search of `_find_lis`: the first position of sorted `dp` whose value is not below `val`. */
  method LowerBound(dp: seq<int>, val: int) returns (lo: int)
    requires StrictlySorted(dp)
    ensures 0 <= lo <= |dp|
    ensures forall k :: 0 <= k < lo ==> dp[k] < val
    ensures forall k :: lo <= k < |dp| ==> dp[k] >= val
  {
    lo := 0;
    var hi := |dp|;
    while lo < hi
      invariant 0 <= lo <= hi <= |dp|
      invariant forall k :: 0 <= k < lo ==> dp[k] < val
      invariant forall k :: hi <= k < |dp| ==> dp[k] >= val
    {
      var mid := (lo + hi) / 2;
      if dp[mid] < val {
        lo := mid + 1;
      } else {
        hi := mid;
      }
    }
  }

  /**
   * `_find_lis`: patience sorting with a binary search over the smallest
   * ending values `dp`, then a walk back along the parent links. The result is
   * an increasing subsequence that no other increasing subsequence outgrows.
   */
  method FindLis(s: seq<int>) returns (r: seq<int>)
    ensures IsIncreasingSubsequence(s, r)
    ensures forall ix :: IsIncreasingSubsequence(s, ix) ==> |ix| <= |r|
  {
    if |s| == 0 {
      return [];
    }
    var dp, parent, indices, len := SortPiles(s);
    var result := WalkBack(s, dp, parent, indices, len);
    r := Reversed(result);
    forall ix | IsIncreasingSubsequence(s, ix)
      ensures |ix| <= |r|
    {
      if |ix| > 0 {
        assert DpBound(s, dp, |s|);
      }
    }
  }

  /** The first loop of `_find_lis`: the piles' smallest ending values and the parent links. */
  method SortPiles(s: seq<int>) returns (dp: seq<int>, parent: seq<int>, indices: seq<int>, ghost len: seq<nat>)
    requires |s| > 0
    ensures |parent| == |s| && |len| == |s| && |dp| > 0
    ensures StrictlySorted(dp) && DpBound(s, dp, |s|)
    ensures IndicesTrack(s, dp, indices, len, |s|)
    ensures forall j :: 0 <= j < |s| ==> ChainLink(s, parent, len, j)
  {
    var n := |s|;
    dp := [];
    parent := seq(n, _ => -1);
    indices := [];
    len := seq(n, _ => 1);
    var i := 0;
    while i < n
      invariant 0 <= i <= n && |parent| == n && |len| == n
      invariant |dp| <= i && (i > 0 ==> |dp| > 0)
      invariant StrictlySorted(dp) && DpBound(s, dp, i)
      invariant IndicesTrack(s, dp, indices, len, i)
      invariant forall j :: 0 <= j < i ==> ChainLink(s, parent, len, j)
    {
      var val := s[i];
      var lo := LowerBound(dp, val);
      ghost var dp0, indices0 := dp, indices;
      if lo == |dp| {
        dp := dp + [val];
        indices := indices + [i];
      } else {
        dp := dp[lo := val];
        indices := indices[lo := i];
      }
      DpStep(s, dp0, i, lo, dp);
      var p := if lo > 0 then indices[lo - 1] else -1;
      ghost var parent0, len0 := parent, len;
      parent := parent[i := p];
      len := len[i := lo + 1];
      ChainStep(s, parent0, len0, i, p, lo + 1, parent, len);
      IndicesStep(s, dp0, indices0, len0, i, lo, dp, indices, len);
      i := i + 1;
    }
  }

  /** The second loop of `_find_lis`: the parent links walked back from the last pile. */
  method WalkBack(s: seq<int>, dp: seq<int>, parent: seq<int>, indices: seq<int>, ghost len: seq<nat>)
    returns (result: seq<int>)
    requires |parent| == |s| && |len| == |s| && |dp| > 0
    requires IndicesTrack(s, dp, indices, len, |s|)
    requires forall j :: 0 <= j < |s| ==> ChainLink(s, parent, len, j)
    ensures |result| == |dp|
    ensures forall k :: 0 <= k < |result| ==> 0 <= result[k] < |s|
    ensures forall a, b :: 0 <= a < b < |result| ==> result[a] > result[b] && s[result[a]] > s[result[b]]
  {
    var n := |s|;
    result := [];
    var idx := indices[|indices| - 1];
    while idx >= 0
      invariant -1 <= idx < n
      invariant idx >= 0 ==> len[idx] == |dp| - |result|
      invariant idx < 0 ==> |result| == |dp|
      invariant forall k :: 0 <= k < |result| ==> 0 <= result[k] < n
      invariant forall a, b :: 0 <= a < b < |result| ==> result[a] > result[b] && s[result[a]] > s[result[b]]
      invariant idx >= 0 && |result| > 0 ==> idx < result[|result| - 1] && s[idx] < s[result[|result| - 1]]
      decreases idx + 1
    {
      assert ChainLink(s, parent, len, idx);
      result := result + [idx];
      idx := parent[idx];
    }
  }

  // ---------------------------------------------------------------- opcodes around anchors

  /** A line common to both sides: `left[leftIdx] == right[rightIdx] == line`. */
  datatype Anchor = Anchor(leftIdx: int, rightIdx: int, line: string)

  /** `SequenceMatcher(None, a, b).get_opcodes()`, supplied from outside. */
  type Matcher = (seq<string>, seq<string>) -> seq<Opcode>

  /** The matcher keeps difflib's promise on `a` and `b`. */
  predicate MatcherGives(matcher: Matcher, a: seq<string>, b: seq<string>)
  {
    OpcodesValid(matcher(a, b), a, b)
  }

  /** The matcher keeps difflib's promise on every pair of inputs. */
  ghost predicate MatcherValid(matcher: Matcher)
  {
    forall a, b :: MatcherGives(matcher, a, b)
  }

  /** Opcodes of a sub-range moved to absolute positions. */
  function Shift(ops: seq<Opcode>, di: int, dj: int): (r: seq<Opcode>)
    ensures |r| == |ops|
  {
    seq(|ops|, k requires 0 <= k < |ops| =>
      Opcode(ops[k].tag, ops[k].i1 + di, ops[k].i2 + di, ops[k].j1 + dj, ops[k].j2 + dj))
  }

  /**
   * The opcodes for the gap from `(lp, rp)` up to `(li, ri)`: the matcher's
   * when both sides are non-empty, a single delete or insert when one is.
   * The trailing gap is the gap up to `(|left|, |right|)`.
   */
  function GapOps(left: seq<string>, right: seq<string>, matcher: Matcher,
                  lp: int, rp: int, li: int, ri: int): seq<Opcode>
  {
    if li > lp || ri > rp then
      var gapLeft := Slice(left, lp, li);
      var gapRight := Slice(right, rp, ri);
      if gapLeft != [] && gapRight != [] then Shift(matcher(gapLeft, gapRight), lp, rp)
      else if gapLeft != [] then [Opcode(Delete, lp, li, rp, rp)]
      else if gapRight != [] then [Opcode(Insert, lp, lp, rp, ri)]
      else []
    else []
  }

  /** The length-1 equal opcode an anchor becomes. */
  function AnchorOp(a: Anchor): Opcode
  {
    Opcode(Equal, a.leftIdx, a.leftIdx + 1, a.rightIdx, a.rightIdx + 1)
  }

  /** `left_pos` after the first `k` anchors. */
  function LeftPos(anchors: seq<Anchor>, k: int): int
    requires 0 <= k <= |anchors|
  {
    if k == 0 then 0 else anchors[k - 1].leftIdx + 1
  }

  /** `right_pos` after the first `k` anchors. */
  function RightPos(anchors: seq<Anchor>, k: int): int
    requires 0 <= k <= |anchors|
  {
    if k == 0 then 0 else anchors[k - 1].rightIdx + 1
  }

  /** The opcodes emitted for the first `k` anchors and the gaps before them. */
  function OpsBefore(left: seq<string>, right: seq<string>, matcher: Matcher, anchors: seq<Anchor>, k: int): seq<Opcode>
    requires 0 <= k <= |anchors|
  {
    if k == 0 then []
    else
      OpsBefore(left, right, matcher, anchors, k - 1)
      + GapOps(left, right, matcher, LeftPos(anchors, k - 1), RightPos(anchors, k - 1),
               anchors[k - 1].leftIdx, anchors[k - 1].rightIdx)
      + [AnchorOp(anchors[k - 1])]
  }

  lemma OpsBeforeNext(left: seq<string>, right: seq<string>, matcher: Matcher, anchors: seq<Anchor>, k: int)
    requires 0 <= k < |anchors|
    ensures OpsBefore(left, right, matcher, anchors, k + 1)
      == OpsBefore(left, right, matcher, anchors, k)
         + GapOps(left, right, matcher, LeftPos(anchors, k), RightPos(anchors, k), anchors[k].leftIdx, anchors[k].rightIdx)
         + [AnchorOp(anchors[k])]
  {
  }

  /** What `_build_opcodes_from_anchors` returns: the opcodes for all anchors, then the trailing gap. */
  function AnchorOps(left: seq<string>, right: seq<string>, matcher: Matcher, anchors: seq<Anchor>): seq<Opcode>
  {
    OpsBefore(left, right, matcher, anchors, |anchors|)
    + GapOps(left, right, matcher, LeftPos(anchors, |anchors|), RightPos(anchors, |anchors|), |left|, |right|)
  }

  /**
   * The gap handling that `_build_opcodes_from_anchors` performs before each
   * anchor and, with `(li, ri) = (|left|, |right|)`, after the last one.
   */
  method DiffGap(left: seq<string>, right: seq<string>, matcher: Matcher, lp: int, rp: int, li: int, ri: int)
    returns (gap: seq<Opcode>)
    ensures gap == GapOps(left, right, matcher, lp, rp, li, ri)
  {
    gap := [];
    if li > lp || ri > rp {
      var gapLeft := Slice(left, lp, li);
      var gapRight := Slice(right, rp, ri);
      if gapLeft != [] && gapRight != [] {
        gap := Shift(matcher(gapLeft, gapRight), lp, rp);
      } else if gapLeft != [] {
        gap := [Opcode(Delete, lp, li, rp, rp)];
      } else if gapRight != [] {
        gap := [Opcode(Insert, lp, lp, rp, ri)];
      }
    }
  }

  /**
   * `_build_opcodes_from_anchors`: each anchor becomes a length-1 equal
   * opcode, and the gaps before it and after the last one are diffed.
   */
  method BuildOpcodesFromAnchors(left: seq<string>, right: seq<string>, anchors: seq<Anchor>, matcher: Matcher)
    returns (ops: seq<Opcode>)
    ensures ops == AnchorOps(left, right, matcher, anchors)
  {
    var leftPos, rightPos;
    ops, leftPos, rightPos := EmitAnchors(left, right, anchors, matcher);
    var gap := DiffGap(left, right, matcher, leftPos, rightPos, |left|, |right|);
    ops := ops + gap;
  }

  /** The loop of `_build_opcodes_from_anchors`: each anchor with the gap before it. */
  method EmitAnchors(left: seq<string>, right: seq<string>, anchors: seq<Anchor>, matcher: Matcher)
    returns (ops: seq<Opcode>, leftPos: int, rightPos: int)
    ensures ops == OpsBefore(left, right, matcher, anchors, |anchors|)
    ensures leftPos == LeftPos(anchors, |anchors|) && rightPos == RightPos(anchors, |anchors|)
  {
    ops := [];
    leftPos, rightPos := 0, 0;
    var k := 0;
    while k < |anchors|
      invariant 0 <= k <= |anchors|
      invariant leftPos == LeftPos(anchors, k) && rightPos == RightPos(anchors, k)
      invariant ops == OpsBefore(left, right, matcher, anchors, k)
    {
      var a := anchors[k];
      var gap := DiffGap(left, right, matcher, leftPos, rightPos, a.leftIdx, a.rightIdx);
      OpsBeforeNext(left, right, matcher, anchors, k);
      ops := ops + gap + [Opcode(Equal, a.leftIdx, a.leftIdx + 1, a.rightIdx, a.rightIdx + 1)];
      leftPos, rightPos := a.leftIdx + 1, a.rightIdx + 1;
      k := k + 1;
    }
  }

  // ---------------------------------------------------------------- validity of the assembled opcodes

  /**
   * Anchors that `_build_opcodes_from_anchors` can rely on: inside both
   * sides, on equal lines, and strictly increasing in both coordinates.
   */
  predicate AnchorsValid(left: seq<string>, right: seq<string>, anchors: seq<Anchor>)
  {
    (forall k :: 0 <= k < |anchors| ==>
       0 <= anchors[k].leftIdx < |left| && 0 <= anchors[k].rightIdx < |right|
       && left[anchors[k].leftIdx] == right[anchors[k].rightIdx])
    && (forall k :: 0 <= k < |anchors| - 1 ==>
          anchors[k].leftIdx < anchors[k + 1].leftIdx && anchors[k].rightIdx < anchors[k + 1].rightIdx)
  }

  /** No two non-equal opcodes in a row. */
  predicate Alternates(ops: seq<Opcode>)
  {
    forall k :: 0 <= k < |ops| - 1 ==> ops[k].tag == Equal || ops[k + 1].tag == Equal
  }

  /** `ops` run without gaps from `(x0, y0)` to `(x1, y1)`, never two non-equal opcodes in a row. */
  predicate Linked(ops: seq<Opcode>, x0: int, y0: int, x1: int, y1: int)
  {
    (ops == [] ==> x0 == x1 && y0 == y1)
    && (ops != [] ==> ops[0].i1 == x0 && ops[0].j1 == y0 && ops[|ops| - 1].i2 == x1 && ops[|ops| - 1].j2 == y1)
    && (forall k :: 0 <= k < |ops| - 1 ==> ops[k].i2 == ops[k + 1].i1 && ops[k].j2 == ops[k + 1].j1)
    && Alternates(ops)
  }

  /** `ops` are valid opcodes covering `a[x0:x1]` and `b[y0:y1]` without gaps. */
  predicate Chain(ops: seq<Opcode>, a: seq<string>, b: seq<string>, x0: int, y0: int, x1: int, y1: int)
  {
    (forall k :: 0 <= k < |ops| ==> OpcodeValid(ops[k], a, b))
    && Linked(ops, x0, y0, x1, y1)
  }

  lemma ChainConcat(o1: seq<Opcode>, o2: seq<Opcode>, a: seq<string>, b: seq<string>,
                    x0: int, y0: int, x1: int, y1: int, x2: int, y2: int)
    requires Chain(o1, a, b, x0, y0, x1, y1) && Chain(o2, a, b, x1, y1, x2, y2)
    requires o1 == [] || o2 == [] || o1[|o1| - 1].tag == Equal || o2[0].tag == Equal
    ensures Chain(o1 + o2, a, b, x0, y0, x2, y2)
  {
    var o := o1 + o2;
    forall k | 0 <= k < |o| - 1
      ensures o[k].i2 == o[k + 1].i1 && o[k].j2 == o[k + 1].j1
      ensures o[k].tag == Equal || o[k + 1].tag == Equal
    {
      if k == |o1| - 1 {
        assert o[k] == o1[|o1| - 1] && o[k + 1] == o2[0];
      } else if k < |o1| - 1 {
        assert o[k] == o1[k] && o[k + 1] == o1[k + 1];
      } else {
        assert o[k] == o2[k - |o1|] && o[k + 1] == o2[k - |o1| + 1];
      }
    }
  }

  /** One opcode on a sub-range, moved to absolute positions, is valid for the whole inputs. */
  lemma ShiftOpValid(op: Opcode, left: seq<string>, right: seq<string>, lp: int, rp: int, li: int, ri: int)
    requires 0 <= lp <= li <= |left| && 0 <= rp <= ri <= |right|
    requires OpcodeValid(op, left[lp..li], right[rp..ri])
    ensures OpcodeValid(Opcode(op.tag, op.i1 + lp, op.i2 + lp, op.j1 + rp, op.j2 + rp), left, right)
  {
    if op.tag == Equal {
      SubSlice(left, lp, li, op.i1, op.i2);
      SubSlice(right, rp, ri, op.j1, op.j2);
    }
  }

  lemma ShiftLinked(ops: seq<Opcode>, lp: int, rp: int, n: int, m: int)
    requires Linked(ops, 0, 0, n, m)
    ensures Linked(Shift(ops, lp, rp), lp, rp, lp + n, rp + m)
  {
  }

  /** The matcher's opcodes on a sub-range, shifted, cover that sub-range of the whole inputs. */
  lemma ShiftChain(ops: seq<Opcode>, left: seq<string>, right: seq<string>, lp: int, rp: int, li: int, ri: int)
    requires 0 <= lp <= li <= |left| && 0 <= rp <= ri <= |right|
    requires OpcodesValid(ops, left[lp..li], right[rp..ri])
    ensures Chain(Shift(ops, lp, rp), left, right, lp, rp, li, ri)
  {
    ShiftOpsValid(ops, left, right, lp, rp, li, ri);
    assert Linked(ops, 0, 0, li - lp, ri - rp);
    ShiftLinked(ops, lp, rp, li - lp, ri - rp);
  }

  lemma ShiftOpsValid(ops: seq<Opcode>, left: seq<string>, right: seq<string>, lp: int, rp: int, li: int, ri: int)
    requires 0 <= lp <= li <= |left| && 0 <= rp <= ri <= |right|
    requires forall k :: 0 <= k < |ops| ==> OpcodeValid(ops[k], left[lp..li], right[rp..ri])
    ensures forall k :: 0 <= k < |ops| ==> OpcodeValid(Shift(ops, lp, rp)[k], left, right)
  {
    forall k | 0 <= k < |ops|
      ensures OpcodeValid(Shift(ops, lp, rp)[k], left, right)
    {
      ShiftOpValid(ops[k], left, right, lp, rp, li, ri);
    }
  }

  /** A gap between two positions in increasing order is covered by its opcodes. */
  lemma GapChain(left: seq<string>, right: seq<string>, matcher: Matcher, lp: int, rp: int, li: int, ri: int)
    requires MatcherValid(matcher)
    requires 0 <= lp <= li <= |left| && 0 <= rp <= ri <= |right|
    ensures Chain(GapOps(left, right, matcher, lp, rp, li, ri), left, right, lp, rp, li, ri)
  {
    if li > lp || ri > rp {
      var gapLeft, gapRight := left[lp..li], right[rp..ri];
      assert Slice(left, lp, li) == gapLeft && Slice(right, rp, ri) == gapRight;
      if gapLeft != [] && gapRight != [] {
        assert MatcherGives(matcher, gapLeft, gapRight);
        ShiftChain(matcher(gapLeft, gapRight), left, right, lp, rp, li, ri);
      }
    }
  }

  /** An anchor on equal lines is a one-opcode chain over its own line. */
  lemma AnchorChain(left: seq<string>, right: seq<string>, a: Anchor)
    requires 0 <= a.leftIdx < |left| && 0 <= a.rightIdx < |right| && left[a.leftIdx] == right[a.rightIdx]
    ensures Chain([AnchorOp(a)], left, right, a.leftIdx, a.rightIdx, a.leftIdx + 1, a.rightIdx + 1)
  {
    assert left[a.leftIdx..a.leftIdx + 1] == [left[a.leftIdx]];
    assert right[a.rightIdx..a.rightIdx + 1] == [right[a.rightIdx]];
  }

  /** Appending a gap and then an anchor to a chain from the origin extends it past the anchor. */
  lemma ChainThroughAnchor(before: seq<Opcode>, gap: seq<Opcode>, left: seq<string>, right: seq<string>,
                           lp: int, rp: int, a: Anchor)
    requires Chain(before, left, right, 0, 0, lp, rp) && (before == [] || before[|before| - 1].tag == Equal)
    requires Chain(gap, left, right, lp, rp, a.leftIdx, a.rightIdx)
    requires 0 <= a.leftIdx < |left| && 0 <= a.rightIdx < |right| && left[a.leftIdx] == right[a.rightIdx]
    ensures Chain(before + gap + [AnchorOp(a)], left, right, 0, 0, a.leftIdx + 1, a.rightIdx + 1)
  {
    ChainConcat(before, gap, left, right, 0, 0, lp, rp, a.leftIdx, a.rightIdx);
    AnchorChain(left, right, a);
    ChainConcat(before + gap, [AnchorOp(a)], left, right, 0, 0, a.leftIdx, a.rightIdx, a.leftIdx + 1, a.rightIdx + 1);
  }

  /** Anchor `k` lies on equal lines at or after the positions the earlier anchors leave. */
  lemma AnchorAfter(left: seq<string>, right: seq<string>, anchors: seq<Anchor>, k: int)
    requires AnchorsValid(left, right, anchors) && 0 <= k < |anchors|
    ensures 0 <= anchors[k].leftIdx < |left| && 0 <= anchors[k].rightIdx < |right|
    ensures left[anchors[k].leftIdx] == right[anchors[k].rightIdx]
    ensures 0 <= LeftPos(anchors, k) <= anchors[k].leftIdx && 0 <= RightPos(anchors, k) <= anchors[k].rightIdx
  {
    if k > 0 {
      assert anchors[k - 1].leftIdx < anchors[k].leftIdx;
    }
  }

  /** One anchor step of `OpsBeforeChain`: a chain to the end of anchor `k` extends through anchor `k + 1`. */
  lemma OpsBeforeStep(left: seq<string>, right: seq<string>, matcher: Matcher, anchors: seq<Anchor>, k: int)
    requires MatcherValid(matcher) && AnchorsValid(left, right, anchors) && 0 < k <= |anchors|
    requires Chain(OpsBefore(left, right, matcher, anchors, k - 1), left, right,
                   0, 0, LeftPos(anchors, k - 1), RightPos(anchors, k - 1))
    requires var ops := OpsBefore(left, right, matcher, anchors, k - 1);
      ops == [] || ops[|ops| - 1].tag == Equal
    ensures Chain(OpsBefore(left, right, matcher, anchors, k), left, right,
                  0, 0, LeftPos(anchors, k), RightPos(anchors, k))
    ensures var ops := OpsBefore(left, right, matcher, anchors, k);
      ops != [] && ops[|ops| - 1].tag == Equal
  {
    var a := anchors[k - 1];
    var lp, rp := LeftPos(anchors, k - 1), RightPos(anchors, k - 1);
    AnchorAfter(left, right, anchors, k - 1);
    var before := OpsBefore(left, right, matcher, anchors, k - 1);
    var gap := GapOps(left, right, matcher, lp, rp, a.leftIdx, a.rightIdx);
    GapChain(left, right, matcher, lp, rp, a.leftIdx, a.rightIdx);
    ChainThroughAnchor(before, gap, left, right, lp, rp, a);
    OpsBeforeNext(left, right, matcher, anchors, k - 1);
  }

  lemma {:induction false} OpsBeforeChain(left: seq<string>, right: seq<string>, matcher: Matcher,
                                          anchors: seq<Anchor>, k: int)
    requires MatcherValid(matcher) && AnchorsValid(left, right, anchors) && 0 <= k <= |anchors|
    ensures Chain(OpsBefore(left, right, matcher, anchors, k), left, right,
                  0, 0, LeftPos(anchors, k), RightPos(anchors, k))
    ensures k == 0 ==> OpsBefore(left, right, matcher, anchors, k) == []
    ensures k > 0 ==>
      var ops := OpsBefore(left, right, matcher, anchors, k);
      ops != [] && ops[|ops| - 1].tag == Equal
  {
    if k > 0 {
      OpsBeforeChain(left, right, matcher, anchors, k - 1);
      OpsBeforeStep(left, right, matcher, anchors, k);
    }
  }

  /**
   * For valid anchors and a matcher that keeps difflib's promise, the
   * assembled opcodes are themselves a valid `get_opcodes()` answer for the
   * two whole inputs.
   */
  lemma AnchorOpcodesValid(left: seq<string>, right: seq<string>, matcher: Matcher, anchors: seq<Anchor>)
    requires MatcherValid(matcher) && AnchorsValid(left, right, anchors)
    ensures OpcodesValid(AnchorOps(left, right, matcher, anchors), left, right)
  {
    var n := |anchors|;
    OpsBeforeChain(left, right, matcher, anchors, n);
    GapChain(left, right, matcher, LeftPos(anchors, n), RightPos(anchors, n), |left|, |right|);
    ChainConcat(OpsBefore(left, right, matcher, anchors, n), 
                GapOps(left, right, matcher, LeftPos(anchors, n), RightPos(anchors, n), |left|, |right|),
                left, right, 0, 0, LeftPos(anchors, n), RightPos(anchors, n), |left|, |right|);
  }

  lemma {:induction false} AnchorEmittedBefore(left: seq<string>, right: seq<string>, matcher: Matcher,
                                               anchors: seq<Anchor>, j: int, k: int)
    requires 0 <= j < k <= |anchors|
    ensures AnchorOp(anchors[j]) in OpsBefore(left, right, matcher, anchors, k)
  {
    OpsBeforeNext(left, right, matcher, anchors, k - 1);
    var prev := OpsBefore(left, right, matcher, anchors, k - 1);
    var rest := GapOps(left, right, matcher, LeftPos(anchors, k - 1), RightPos(anchors, k - 1),
                       anchors[k - 1].leftIdx, anchors[k - 1].rightIdx) + [AnchorOp(anchors[k - 1])];
    if j < k - 1 {
      AnchorEmittedBefore(left, right, matcher, anchors, j, k - 1);
      InLeft(prev, rest, AnchorOp(anchors[j]));
    } else {
      InRight(prev, rest, |rest| - 1);
    }
  }

  /** Every anchor appears among the assembled opcodes as its length-1 equal opcode. */
  lemma AnchorsEmitted(left: seq<string>, right: seq<string>, matcher: Matcher, anchors: seq<Anchor>)
    ensures forall j :: 0 <= j < |anchors| ==> AnchorOp(anchors[j]) in AnchorOps(left, right, matcher, anchors)
  {
    forall j | 0 <= j < |anchors|
      ensures AnchorOp(anchors[j]) in AnchorOps(left, right, matcher, anchors)
    {
      AnchorEmittedBefore(left, right, matcher, anchors, j, |anchors|);
      InLeft(OpsBefore(left, right, matcher, anchors, |anchors|),
             GapOps(left, right, matcher, LeftPos(anchors, |anchors|), RightPos(anchors, |anchors|), |left|, |right|),
             AnchorOp(anchors[j]));
    }
  }

  lemma InLeft<T>(a: seq<T>, b: seq<T>, x: T)
    requires x in a
    ensures x in a + b
  {
  }

  lemma InRight<T>(a: seq<T>, b: seq<T>, i: int)
    requires 0 <= i < |b|
    ensures b[i] in a + b
  {
    assert (a + b)[|a| + i] == b[i];
  }

  // ---------------------------------------------------------------- patience diff

  /**
   * What the dictionary `_patience_diff` fills for one side holds: every line
   * of the side is a key; it maps to `Some(i)` when it occurs once, at `i`,
   * and to `None` when it repeats.
   */
  ghost predicate UniqueDict(lines: seq<string>, d: map<string, Option<int>>)
  {
    (forall line :: line in d <==> line in lines)
    && (forall line :: line in d ==> (d[line].Some? <==> Count(lines, line) == 1))
    && (forall line :: line in d && d[line].Some? ==> 0 <= d[line].value < |lines| && lines[d[line].value] == line)
  }

  /** Recording line `i` keeps the dictionary describing the lines so far. */
  lemma UniqueDictStep(lines: seq<string>, i: int, d: map<string, Option<int>>)
    requires 0 <= i < |lines| && UniqueDict(lines[..i], d)
    ensures UniqueDict(lines[..i + 1], if lines[i] in d then d[lines[i] := None] else d[lines[i] := Some(i)])
  {
    var line := lines[i];
    var next := lines[..i + 1];
    assert next[..i] == lines[..i];
    assert forall x :: x in next <==> x in lines[..i] || x == line;
    assert forall x :: Count(next, x) == Count(lines[..i], x) + (if x == line then 1 else 0);
  }

  /** The loop of `_patience_diff` that fills the dictionary for one side. */
  method UniqueIndices(lines: seq<string>) returns (d: map<string, Option<int>>)
    ensures UniqueDict(lines, d)
  {
    d := map[];
    var i := 0;
    while i < |lines|
      invariant 0 <= i <= |lines|
      invariant UniqueDict(lines[..i], d)
    {
      var line := lines[i];
      UniqueDictStep(lines, i, d);
      if line in d {
        d := d[line := None];
      } else {
        d := d[line := Some(i)];
      }
      i := i + 1;
    }
    assert lines[..i] == lines;
  }

  /** Whether left position `i` holds a line that occurs once on each side. */
  predicate UniqueOnBoth(left: seq<string>, right: seq<string>, i: int)
    requires 0 <= i < |left|
  {
    Count(left, left[i]) == 1 && Count(right, left[i]) == 1
  }

  /**
   * `common` after the loop over the left dictionary and `common.sort()`: the
   * lines unique on both sides, by increasing left position, each with its
   * right position. (The dictionary is iterated in insertion order, which for
   * a line seen once is its single position, so the sort only confirms that
   * order.)
   */
  function CommonUnique(left: seq<string>, right: seq<string>, n: int): (r: seq<Anchor>)
    requires 0 <= n <= |left|
    ensures forall k :: 0 <= k < |r| ==> r[k].leftIdx < n && Candidate(left, right, r[k])
    ensures LeftOrdered(r)
    ensures forall i :: 0 <= i < n && UniqueOnBoth(left, right, i) ==> exists k :: 0 <= k < |r| && r[k].leftIdx == i
  {
    if n == 0 then []
    else
      var prev := CommonUnique(left, right, n - 1);
      if UniqueOnBoth(left, right, n - 1) then
        var r := prev + [Anchor(n - 1, FirstIndex(right, left[n - 1]), left[n - 1])];
        assert r[|prev|].leftIdx == n - 1;
        assert forall k :: 0 <= k < |prev| ==> r[k] == prev[k];
        r
      else prev
  }

  /** An anchor whose line sits at both of its positions. */
  predicate AnchorOnLines(left: seq<string>, right: seq<string>, a: Anchor)
  {
    0 <= a.leftIdx < |left| && 0 <= a.rightIdx < |right|
    && left[a.leftIdx] == a.line == right[a.rightIdx]
  }

  /** An anchor on a line occurring once on each side, at its two positions. */
  predicate Candidate(left: seq<string>, right: seq<string>, a: Anchor)
  {
    AnchorOnLines(left, right, a) && Count(left, a.line) == 1 && Count(right, a.line) == 1
  }

  /** One step of `CollectCommon`: the dictionaries decide what the counts decide. */
  lemma CollectStep(left: seq<string>, right: seq<string>, lu: map<string, Option<int>>, ru: map<string, Option<int>>, i: int)
    requires UniqueDict(left, lu) && UniqueDict(right, ru)
    requires 0 <= i < |left|
    ensures var line := left[i];
      (line in lu && lu[line] == Some(i) && line in ru && ru[line].Some?) <==> UniqueOnBoth(left, right, i)
    ensures var line := left[i];
      UniqueOnBoth(left, right, i) ==> ru[line].value == FirstIndex(right, line)
  {
    var line := left[i];
    assert line in left;
    if line in lu && lu[line].Some? && lu[line].value != i {
      CountTwo(left, i, lu[line].value);
    }
    if UniqueOnBoth(left, right, i) {
      var j := FirstIndex(right, line);
      if ru[line].value != j {
        CountTwo(right, j, ru[line].value);
      }
    }
  }

  /** The loop of `_patience_diff` that collects the lines unique on both sides. */
  method CollectCommon(left: seq<string>, right: seq<string>, lu: map<string, Option<int>>, ru: map<string, Option<int>>)
    returns (common: seq<Anchor>)
    requires UniqueDict(left, lu) && UniqueDict(right, ru)
    ensures common == CommonUnique(left, right, |left|)
  {
    common := [];
    var i := 0;
    while i < |left|
      invariant 0 <= i <= |left|
      invariant common == CommonUnique(left, right, i)
    {
      var line := left[i];
      CollectStep(left, right, lu, ru, i);
      if line in lu && lu[line] == Some(i) && line in ru && ru[line].Some? {
        common := common + [Anchor(i, ru[line].value, line)];
      }
      i := i + 1;
    }
  }

  /** The right positions of the candidate anchors, the sequence `_find_lis` is run on. */
  function RightIdxs(common: seq<Anchor>): (r: seq<int>)
    ensures |r| == |common| && forall k :: 0 <= k < |common| ==> r[k] == common[k].rightIdx
  {
    seq(|common|, k requires 0 <= k < |common| => common[k].rightIdx)
  }

  /** Every anchor of `common` sits on its lines. */
  predicate AllOnLines(left: seq<string>, right: seq<string>, common: seq<Anchor>)
  {
    forall k :: 0 <= k < |common| ==> AnchorOnLines(left, right, common[k])
  }

  /** Candidates by strictly increasing left position. */
  predicate LeftOrdered(common: seq<Anchor>)
  {
    forall a, b :: 0 <= a < b < |common| ==> common[a].leftIdx < common[b].leftIdx
  }

  /** `[common[i] for i in ix]`. */
  function Pick(common: seq<Anchor>, ix: seq<int>): (r: seq<Anchor>)
    requires forall k :: 0 <= k < |ix| ==> 0 <= ix[k] < |common|
    ensures |r| == |ix| && forall k :: 0 <= k < |ix| ==> r[k] == common[ix[k]]
  {
    seq(|ix|, k requires 0 <= k < |ix| => common[ix[k]])
  }

  /**
   * The anchors a longest increasing subsequence picks: candidates in their
   * order whose right positions strictly increase, as many as any such choice.
   */
  ghost predicate LongestChain(common: seq<Anchor>, anchors: seq<Anchor>)
  {
    exists ix :: IsLongestIncreasing(RightIdxs(common), ix) && anchors == Pick(common, ix)
  }

  /**
   * Candidates ordered by left position, on lines present at their positions
   * on both sides, give valid anchors whichever increasing subsequence of
   * their right positions is picked.
   */
  lemma PickValid(left: seq<string>, right: seq<string>, common: seq<Anchor>, ix: seq<int>)
    requires AllOnLines(left, right, common) && LeftOrdered(common)
    requires IsIncreasingSubsequence(RightIdxs(common), ix)
    ensures AnchorsValid(left, right, Pick(common, ix))
  {
    var anchors := Pick(common, ix);
    forall k | 0 <= k < |anchors| - 1
      ensures anchors[k].leftIdx < anchors[k + 1].leftIdx && anchors[k].rightIdx < anchors[k + 1].rightIdx
    {
      assert ix[k] < ix[k + 1];
      assert RightIdxs(common)[ix[k]] < RightIdxs(common)[ix[k + 1]];
    }
  }

  /** Pairs of a candidate list that is empty admit only the empty subsequence. */
  lemma NoneOfEmpty(jx: seq<int>)
    requires IsIncreasingSubsequence([], jx)
    ensures jx == []
  {
  }

  /** The positions of a longest strictly increasing subsequence of `s`. */
  ghost predicate IsLongestIncreasing(s: seq<int>, ix: seq<int>)
  {
    IsIncreasingSubsequence(s, ix) && forall jx :: IsIncreasingSubsequence(s, jx) ==> |jx| <= |ix|
  }

  /**
   * `if candidates: lis = self._find_lis(...)`, the guard both anchored
   * algorithms put around the search; without candidates none are kept.
   */
  method GuardedLis(s: seq<int>) returns (ix: seq<int>)
    ensures IsLongestIncreasing(s, ix)
  {
    if s != [] {
      ix := FindLis(s);
    } else {
      ix := [];
      forall jx | IsIncreasingSubsequence(s, jx)
        ensures |jx| <= 0
      {
        NoneOfEmpty(jx);
      }
    }
  }

  /** A longest increasing subsequence of the candidates' right positions picks a longest chain. */
  lemma LongestPick(common: seq<Anchor>, ix: seq<int>)
    requires IsLongestIncreasing(RightIdxs(common), ix)
    ensures LongestChain(common, Pick(common, ix))
  {
  }

  /** Any increasing subsequence of the patience candidates' right positions gives valid anchors. */
  lemma PatienceAnchorsValid(left: seq<string>, right: seq<string>, ix: seq<int>)
    requires IsLongestIncreasing(RightIdxs(CommonUnique(left, right, |left|)), ix)
    ensures AnchorsValid(left, right, Pick(CommonUnique(left, right, |left|), ix))
  {
    PickValid(left, right, CommonUnique(left, right, |left|), ix);
  }

  /**
   * The anchors `_patience_diff` settles on: the lines that occur exactly once
   * on each side are the candidates, and a longest run of them in the same
   * order on both sides is kept.
   */
  method PatienceAnchors(left: seq<string>, right: seq<string>) returns (anchors: seq<Anchor>)
    ensures AnchorsValid(left, right, anchors)
    ensures LongestChain(CommonUnique(left, right, |left|), anchors)
  {
    var leftUnique := UniqueIndices(left);
    var rightUnique := UniqueIndices(right);
    var common := CollectCommon(left, right, leftUnique, rightUnique);
    var ix := GuardedLis(RightIdxs(common));
    anchors := Pick(common, ix);
    LongestPick(common, ix);
    PatienceAnchorsValid(left, right, ix);
  }

  /** `_patience_diff`: the opcodes assembled around the patience anchors. */
  method PatienceDiff(left: seq<string>, right: seq<string>, matcher: Matcher) returns (ops: seq<Opcode>)
    requires MatcherValid(matcher)
    ensures OpcodesValid(ops, left, right)
    ensures exists anchors :: (ops == AnchorOps(left, right, matcher, anchors)
      && LongestChain(CommonUnique(left, right, |left|), anchors))
  {
    var anchors := PatienceAnchors(left, right);
    ops := BuildOpcodesFromAnchors(left, right, anchors, matcher);
    AnchorOpcodesValid(left, right, matcher, anchors);
  }

  // ---------------------------------------------------------------- histogram diff

  /**
   * `anchor_lines` of `_histogram_diff`: the lines present on both sides whose
   * occurrences on the two sides add up to at most three.
   */
  function AnchorLineSet(left: seq<string>, right: seq<string>): (r: set<string>)
    ensures forall line :: line in r <==>
      line in left && line in right && Count(left, line) + Count(right, line) <= 3
  {
    set line | line in left && line in right && Count(left, line) + Count(right, line) <= 3
  }

  /** Whether left position `i` is the first occurrence of a histogram anchor line. */
  predicate FirstOfAnchorLine(left: seq<string>, right: seq<string>, i: int)
    requires 0 <= i < |left|
  {
    left[i] in AnchorLineSet(left, right) && left[i] !in left[..i]
  }

  /** An anchor pairing the first occurrences of a histogram anchor line on both sides. */
  predicate HistogramCandidate(left: seq<string>, right: seq<string>, a: Anchor)
  {
    AnchorOnLines(left, right, a) && a.line in AnchorLineSet(left, right)
    && a.line !in left[..a.leftIdx] && a.line !in right[..a.rightIdx]
  }

  /**
   * `anchors` after the scan over `left` and `anchors.sort()`: each anchor
   * line paired at its first occurrence on each side, by increasing left
   * position (the order the scan appends them in, so the sort keeps it).
   */
  function HistogramCandidates(left: seq<string>, right: seq<string>, n: int): (r: seq<Anchor>)
    requires 0 <= n <= |left|
    ensures |r| <= n
  {
    if n == 0 then []
    else
      var prev := HistogramCandidates(left, right, n - 1);
      if FirstOfAnchorLine(left, right, n - 1) then prev + [Anchor(n - 1, FirstIndex(right, left[n - 1]), left[n - 1])]
      else prev
  }

  /**
   * The candidates are first-occurrence pairs on anchor lines, in increasing
   * left order, and every first occurrence of an anchor line is among them.
   */
  lemma {:induction false} HistogramCandidatesProps(left: seq<string>, right: seq<string>, n: int)
    requires 0 <= n <= |left|
    ensures var r := HistogramCandidates(left, right, n);
      (forall k :: 0 <= k < |r| ==> r[k].leftIdx < n && HistogramCandidate(left, right, r[k]))
      && LeftOrdered(r)
      && (forall i :: 0 <= i < n && FirstOfAnchorLine(left, right, i) ==> exists k :: 0 <= k < |r| && r[k].leftIdx == i)
  {
    if n > 0 {
      HistogramCandidatesProps(left, right, n - 1);
      var prev := HistogramCandidates(left, right, n - 1);
      if FirstOfAnchorLine(left, right, n - 1) {
        var a := Anchor(n - 1, FirstIndex(right, left[n - 1]), left[n - 1]);
        FirstPairCandidate(left, right, n - 1);
        var r := prev + [a];
        assert r == HistogramCandidates(left, right, n);
        assert r[|prev|] == a;
        assert forall k :: 0 <= k < |prev| ==> r[k] == prev[k];
      }
    }
  }

  /** The pair the scan appends at the first occurrence of an anchor line is a candidate. */
  lemma FirstPairCandidate(left: seq<string>, right: seq<string>, i: int)
    requires 0 <= i < |left| && FirstOfAnchorLine(left, right, i)
    ensures HistogramCandidate(left, right, Anchor(i, FirstIndex(right, left[i]), left[i]))
  {
  }

  /** The inner loop of `_histogram_diff`: the first position of `line` in `right`. */
  method FindInRight(right: seq<string>, line: string) returns (j: int)
    requires line in right
    ensures j == FirstIndex(right, line)
  {
    j := 0;
    while right[j] != line
      invariant 0 <= j < |right| && line !in right[..j]
      invariant j <= FirstIndex(right, line)
      decreases |right| - j
    {
      j := j + 1;
    }
  }

  /** The scan of `_histogram_diff` over `left` that pairs each anchor line once. */
  method CollectHistogramAnchors(left: seq<string>, right: seq<string>, anchorLines: set<string>)
    returns (anchors: seq<Anchor>)
    requires anchorLines == AnchorLineSet(left, right)
    ensures anchors == HistogramCandidates(left, right, |left|)
  {
    anchors := [];
    var remaining := anchorLines;
    var i := 0;
    while i < |left|
      invariant 0 <= i <= |left|
      invariant anchors == HistogramCandidates(left, right, i)
      invariant forall x :: x in remaining <==> x in anchorLines && x !in left[..i]
    {
      var line := left[i];
      assert forall x :: x in left[..i + 1] <==> x in left[..i] || x == line;
      if line in remaining {
        var j := FindInRight(right, line);
        anchors := anchors + [Anchor(i, j, line)];
        remaining := remaining - {line};
      }
      i := i + 1;
    }
  }

  /** Any increasing subsequence of the histogram candidates' right positions gives valid anchors. */
  lemma HistogramAnchorsValid(left: seq<string>, right: seq<string>, ix: seq<int>)
    requires IsLongestIncreasing(RightIdxs(HistogramCandidates(left, right, |left|)), ix)
    ensures AnchorsValid(left, right, Pick(HistogramCandidates(left, right, |left|), ix))
  {
    HistogramCandidatesProps(left, right, |left|);
    PickValid(left, right, HistogramCandidates(left, right, |left|), ix);
  }

  /**
   * The anchors `_histogram_diff` settles on when there are anchor lines: a
   * longest run of the first-occurrence pairs in the same order on both sides.
   */
  method HistogramAnchors(left: seq<string>, right: seq<string>, anchorLines: set<string>)
    returns (anchors: seq<Anchor>)
    requires anchorLines == AnchorLineSet(left, right)
    ensures AnchorsValid(left, right, anchors)
    ensures LongestChain(HistogramCandidates(left, right, |left|), anchors)
  {
    var found := CollectHistogramAnchors(left, right, anchorLines);
    var ix := GuardedLis(RightIdxs(found));
    anchors := Pick(found, ix);
    LongestPick(found, ix);
    HistogramAnchorsValid(left, right, ix);
  }

  /**
   * `_histogram_diff`: with no anchor line the plain matcher's opcodes, and
   * otherwise the opcodes assembled around the histogram anchors.
   */
  method HistogramDiff(left: seq<string>, right: seq<string>, matcher: Matcher) returns (ops: seq<Opcode>)
    requires MatcherValid(matcher)
    ensures OpcodesValid(ops, left, right)
    ensures AnchorLineSet(left, right) == {} ==> ops == matcher(left, right)
    ensures AnchorLineSet(left, right) != {} ==> exists anchors :: (ops == AnchorOps(left, right, matcher, anchors)
      && LongestChain(HistogramCandidates(left, right, |left|), anchors))
  {
    var anchorLines := AnchorLineSet(left, right);
    if anchorLines == {} {
      ops := matcher(left, right);
      assert MatcherGives(matcher, left, right);
      return;
    }
    var anchors := HistogramAnchors(left, right, anchorLines);
    ops := BuildOpcodesFromAnchors(left, right, anchors, matcher);
    AnchorOpcodesValid(left, right, matcher, anchors);
  }
}
