/**
 * The three-way merge engine: diff regions of each side against the base,
 * a sweep over base positions that groups overlapping changes into hunks and
 * classifies them, consolidation of unchanged regions, conflict creation under
 * a strategy, and applying a resolution to one conflict afterwards.
 */
module ThreeWay {
  import opened Wrappers
  import opened TextUtil
  import opened Models
  import opened Opcodes

  datatype MergeStrategy = Manual | FavorLeft | FavorRight | FavorShorter | FavorLonger

  /** A change of one side against the base: `base[baseStart:baseEnd]` became `otherLines`. */
  datatype DiffRegion = DiffRegion(
    baseStart: int, baseEnd: int, otherStart: int, otherEnd: int,
    baseLines: seq<string>, otherLines: seq<string>)
  {
    predicate IsAddition() { |baseLines| == 0 }
    predicate IsDeletion() { |otherLines| == 0 }
    predicate IsModification() { |baseLines| > 0 && |otherLines| > 0 }
  }

  /** How much a diff shifts the positions after it. */
  function Delta(d: DiffRegion): int
  {
    |d.otherLines| - |d.baseLines|
  }

  /** The shift accumulated by the first `k` diffs. */
  function Off(ds: seq<DiffRegion>, k: nat): int
    requires k <= |ds|
  {
    if k == 0 then 0 else Off(ds, k - 1) + Delta(ds[k - 1])
  }

  /** The shift after the last of the diffs: `other` positions minus `base` positions. */
  function ShiftAfter(ds: seq<DiffRegion>): int
  {
    if ds == [] then 0 else ds[|ds| - 1].otherEnd - ds[|ds| - 1].baseEnd
  }

  predicate DiffFits(d: DiffRegion, base: seq<string>, other: seq<string>)
  {
    0 <= d.baseStart <= d.baseEnd <= |base| && 0 <= d.otherStart <= d.otherEnd <= |other|
    && d.baseLines == base[d.baseStart..d.baseEnd] && d.otherLines == other[d.otherStart..d.otherEnd]
  }

  predicate Separated(ds: seq<DiffRegion>)
  {
    forall k :: 0 <= k < |ds| - 1 ==> ds[k].baseEnd < ds[k + 1].baseStart && ds[k].otherEnd < ds[k + 1].otherStart
  }

  /** Between two diffs the base and the other side run in step (an equal run). */
  predicate Shifted(ds: seq<DiffRegion>)
  {
    (ds != [] ==> ds[0].otherStart == ds[0].baseStart)
    && forall k :: 0 <= k < |ds| - 1 ==> ds[k + 1].otherStart - ds[k + 1].baseStart == ds[k].otherEnd - ds[k].baseEnd
  }

  /**
   * The diff regions of one side as difflib produces them: within bounds,
   * holding the base and other slices, strictly separated in both sequences,
   * and with equal runs between them.
   */
  predicate DiffsWellFormed(ds: seq<DiffRegion>, base: seq<string>, other: seq<string>)
  {
    (forall k :: 0 <= k < |ds| ==> DiffFits(ds[k], base, other))
    && Separated(ds) && Shifted(ds)
    && |other| - |base| == ShiftAfter(ds)
  }

  function RegionOfOpcode(op: Opcode, base: seq<string>, other: seq<string>): DiffRegion
  {
    DiffRegion(op.i1, op.i2, op.j1, op.j2, Slice(base, op.i1, op.i2), Slice(other, op.j1, op.j2))
  }

  /** The non-equal opcodes, in order, as diff regions. */
  function DiffsOf(ops: seq<Opcode>, base: seq<string>, other: seq<string>): seq<DiffRegion>
  {
    if ops == [] then []
    else
      DiffsOf(ops[..|ops| - 1], base, other)
      + (if ops[|ops| - 1].tag == Equal then [] else [RegionOfOpcode(ops[|ops| - 1], base, other)])
  }

  /** `_compute_diff_regions`: a loop over the opcodes that keeps the non-equal ones. */
  method ComputeDiffRegions(base: seq<string>, other: seq<string>, ops: seq<Opcode>)
    returns (regions: seq<DiffRegion>)
    requires OpcodesValid(ops, base, other)
    ensures regions == DiffsOf(ops, base, other)
    ensures DiffsWellFormed(regions, base, other)
  {
    regions := [];
    var i := 0;
    while i < |ops|
      invariant 0 <= i <= |ops|
      invariant regions == DiffsOf(ops[..i], base, other)
    {
      DiffsOfNext(ops, base, other, i);
      if ops[i].tag != Equal {
        regions := regions + [RegionOfOpcode(ops[i], base, other)];
      }
      i := i + 1;
    }
    assert ops[..|ops|] == ops;
    if ops != [] {
      DiffsOfWellFormed(ops, base, other, |ops|);
    }
  }

  lemma DiffsOfNext(ops: seq<Opcode>, base: seq<string>, other: seq<string>, i: nat)
    requires i < |ops|
    ensures DiffsOf(ops[..i + 1], base, other)
      == DiffsOf(ops[..i], base, other) + (if ops[i].tag == Equal then [] else [RegionOfOpcode(ops[i], base, other)])
  {
    assert ops[..i + 1][..i] == ops[..i];
  }

  /** The invariant of the opcode walk after the opcode `op`. */
  predicate WalkInvariant(ds: seq<DiffRegion>, op: Opcode, base: seq<string>, other: seq<string>)
  {
    (forall k :: 0 <= k < |ds| ==> DiffFits(ds[k], base, other))
    && Separated(ds) && Shifted(ds)
    && (ds != [] ==> ds[|ds| - 1].baseEnd <= op.i2 && ds[|ds| - 1].otherEnd <= op.j2)
    && (ds != [] && op.tag == Equal ==> ds[|ds| - 1].baseEnd < op.i2 && ds[|ds| - 1].otherEnd < op.j2)
    && op.j2 - op.i2 == ShiftAfter(ds)
  }

  /** What a prefix of valid opcodes yields: the walk invariant after its last opcode. */
  lemma {:induction false} DiffsOfWellFormed(ops: seq<Opcode>, base: seq<string>, other: seq<string>, i: nat)
    requires OpcodesValid(ops, base, other)
    requires 0 < i <= |ops|
    ensures WalkInvariant(DiffsOf(ops[..i], base, other), ops[i - 1], base, other)
    ensures i == |ops| ==> DiffsWellFormed(DiffsOf(ops[..i], base, other), base, other)
  {
    var op := ops[i - 1];
    assert OpcodeValid(op, base, other);
    assert ops[..i][..i - 1] == ops[..i - 1];
    var prev := DiffsOf(ops[..i - 1], base, other);
    if i == 1 {
      assert ops[..0] == [];
      FirstStep(op, base, other);
    } else {
      DiffsOfWellFormed(ops, base, other, i - 1);
      assert ops[i - 2].i2 == op.i1 && ops[i - 2].j2 == op.j1;
      assert ops[i - 2].tag == Equal || op.tag == Equal;
      NextStep(prev, ops[i - 2], op, base, other);
    }
    var ds := DiffsOf(ops[..i], base, other);
    if i == |ops| {
      assert op.i2 == |base| && op.j2 == |other|;
    }
  }

  lemma FirstStep(op: Opcode, base: seq<string>, other: seq<string>)
    requires OpcodeValid(op, base, other) && op.i1 == 0 && op.j1 == 0
    ensures WalkInvariant(if op.tag == Equal then [] else [RegionOfOpcode(op, base, other)], op, base, other)
  {
  }

  lemma NextStep(prev: seq<DiffRegion>, last: Opcode, op: Opcode, base: seq<string>, other: seq<string>)
    requires WalkInvariant(prev, last, base, other)
    requires OpcodeValid(op, base, other)
    requires last.i2 == op.i1 && last.j2 == op.j1
    requires last.tag == Equal || op.tag == Equal
    ensures WalkInvariant(prev + (if op.tag == Equal then [] else [RegionOfOpcode(op, base, other)]), op, base, other)
  {
    if op.tag != Equal {
      NextStepChange(prev, last, op, base, other);
    } else {
      assert prev + [] == prev;
    }
  }

  lemma NextStepChange(prev: seq<DiffRegion>, last: Opcode, op: Opcode, base: seq<string>, other: seq<string>)
    requires WalkInvariant(prev, last, base, other)
    requires OpcodeValid(op, base, other) && op.tag != Equal
    requires last.i2 == op.i1 && last.j2 == op.j1
    requires last.tag == Equal
    ensures WalkInvariant(prev + [RegionOfOpcode(op, base, other)], op, base, other)
  {
    var d := RegionOfOpcode(op, base, other);
    var ds := prev + [d];
    assert DiffFits(d, base, other);
    forall k | 0 <= k < |ds| ensures DiffFits(ds[k], base, other) {
      if k < |prev| { assert ds[k] == prev[k]; }
    }
    assert Separated(ds) by {
      forall k | 0 <= k < |ds| - 1
        ensures ds[k].baseEnd < ds[k + 1].baseStart && ds[k].otherEnd < ds[k + 1].otherStart
      {
        assert ds[k] == prev[k];
        if k < |prev| - 1 { assert ds[k + 1] == prev[k + 1]; }
      }
    }
    assert Shifted(ds) by {
      forall k | 0 <= k < |ds| - 1
        ensures ds[k + 1].otherStart - ds[k + 1].baseStart == ds[k].otherEnd - ds[k].baseEnd
      {
        assert ds[k] == prev[k];
        if k < |prev| - 1 { assert ds[k + 1] == prev[k + 1]; }
      }
      if prev != [] { assert ds[0] == prev[0]; }
    }
  }

  /** Under the shift invariants, the summed deltas of a prefix equal the shift after it. */
  lemma {:induction false} OffIsShift(ds: seq<DiffRegion>, base: seq<string>, other: seq<string>, j: nat)
    requires DiffsWellFormed(ds, base, other)
    requires j <= |ds|
    ensures Off(ds, j) == ShiftAfter(ds[..j])
  {
    if j > 0 {
      OffIsShift(ds, base, other, j - 1);
      assert DiffFits(ds[j - 1], base, other);
      assert ds[..j][j - 1] == ds[j - 1];
      if j > 1 {
        assert ds[..j - 1][j - 2] == ds[j - 2];
      } else {
        assert ds[..0] == [];
      }
    }
  }

  // ---------------------------------------------------------------- mapping base positions

  /** The mapping walks past a diff that ends before `p`, or ends at `p` without starting there. */
  predicate PassedBy(d: DiffRegion, p: int)
  {
    d.baseEnd < p || (d.baseEnd == p && d.baseStart != p)
  }

  /** The index of the first diff the mapping of `p` stops at, or `|ds|` when it passes them all. */
  function StopIndex(ds: seq<DiffRegion>, p: int): (j: nat)
    ensures j <= |ds|
    ensures forall k :: 0 <= k < j ==> PassedBy(ds[k], p)
    ensures j < |ds| ==> !PassedBy(ds[j], p)
  {
    if ds == [] then 0 else if PassedBy(ds[0], p) then 1 + StopIndex(ds[1..], p) else 0
  }

  /**
   * Where base position `p` lands on the other side: shifted by every diff
   * passed; at a diff starting at `p` the right bias also takes that diff's
   * shift; inside a diff the position snaps to the diff's start (left bias) or,
   * shifted, to its end (right bias).
   */
  function MapRef(p: int, ds: seq<DiffRegion>, rightBias: bool): int
  {
    var j := StopIndex(ds, p);
    if j == |ds| then p + Off(ds, j)
    else if ds[j].baseStart == p then p + Off(ds, j) + (if rightBias then Delta(ds[j]) else 0)
    else if ds[j].baseStart < p then
      (if rightBias then ds[j].baseEnd + Off(ds, j + 1) else ds[j].baseStart + Off(ds, j))
    else p + Off(ds, j)
  }

  /** `_map_base_to_other`: the offset loop over the diffs, with its early exits. */
  method MapBaseToOther(basePos: int, ds: seq<DiffRegion>, rightBias: bool) returns (r: int)
    ensures r == MapRef(basePos, ds, rightBias)
  {
    var pos := basePos;
    var offset := 0;
    var i := 0;
    while i < |ds|
      invariant 0 <= i <= |ds|
      invariant pos == basePos && offset == Off(ds, i)
      invariant forall k :: 0 <= k < i ==> PassedBy(ds[k], basePos)
    {
      var d := ds[i];
      if d.baseEnd < pos {
        offset := offset + |d.otherLines| - |d.baseLines|;
      } else if d.baseStart == pos {
        if rightBias {
          offset := offset + |d.otherLines| - |d.baseLines|;
        }
        break;
      } else if d.baseEnd == pos {
        offset := offset + |d.otherLines| - |d.baseLines|;
      } else if d.baseStart < pos {
        if rightBias {
          pos := d.baseEnd;
          offset := offset + |d.otherLines| - |d.baseLines|;
        } else {
          pos := d.baseStart;
        }
        break;
      } else {
        break;
      }
      i := i + 1;
    }
    StopIndexIs(ds, basePos, i);
    r := pos + offset;
  }

  /** The stop index is the first diff not passed. */
  lemma {:induction false} StopIndexIs(ds: seq<DiffRegion>, p: int, i: nat)
    requires i <= |ds|
    requires forall k :: 0 <= k < i ==> PassedBy(ds[k], p)
    requires i < |ds| ==> !PassedBy(ds[i], p)
    ensures StopIndex(ds, p) == i
  {
    if i > 0 {
      StopIndexIs(ds[1..], p, i - 1);
    }
  }

  // ---------------------------------------------------------------- the sweep

  /** Every diff spans a range of base positions within `0..n`. */
  predicate Spans(ds: seq<DiffRegion>, n: int)
  {
    forall k :: 0 <= k < |ds| ==> 0 <= ds[k].baseStart <= ds[k].baseEnd <= n
  }

  function StartsAt(ds: seq<DiffRegion>, p: int): set<int>
  {
    set k | 0 <= k < |ds| && ds[k].baseStart == p
  }

  function EndsAt(ds: seq<DiffRegion>, p: int): set<int>
  {
    set k | 0 <= k < |ds| && ds[k].baseEnd == p
  }

  /** The diffs a sweep arriving at `p` holds open: started before `p` and not ended before it. */
  function ActiveAt(ds: seq<DiffRegion>, p: int): set<int>
  {
    set k | 0 <= k < |ds| && ds[k].baseStart < p <= ds[k].baseEnd
  }

  function StartedIn(ds: seq<DiffRegion>, lo: int, hi: int): set<int>
  {
    set k | 0 <= k < |ds| && lo <= ds[k].baseStart < hi
  }

  /** A position where some diff starts or ends, or the end of the base (the sentinel event). */
  predicate HasEventAt(ld: seq<DiffRegion>, rd: seq<DiffRegion>, n: int, p: int)
  {
    p == n || StartsAt(ld, p) != {} || EndsAt(ld, p) != {} || StartsAt(rd, p) != {} || EndsAt(rd, p) != {}
  }

  /** Some diff covers the base line at `q` (it is still open after the events at `q`). */
  predicate Open(ds: seq<DiffRegion>, q: int)
  {
    exists k :: 0 <= k < |ds| && ds[k].baseStart <= q < ds[k].baseEnd
  }

  /** No diff started before `b` reaches `b`. */
  predicate ClearBefore(ds: seq<DiffRegion>, b: int)
  {
    forall k :: 0 <= k < |ds| ==> !(ds[k].baseStart < b <= ds[k].baseEnd)
  }

  /** Some diff lies within `lo..hi`. */
  predicate Involves(ds: seq<DiffRegion>, lo: int, hi: int)
  {
    exists k :: 0 <= k < |ds| && lo <= ds[k].baseStart && ds[k].baseEnd <= hi
  }

  /** No diff overlaps `lo..hi`, nor is an insertion strictly inside it. */
  predicate Untouched(ds: seq<DiffRegion>, lo: int, hi: int)
  {
    forall k :: 0 <= k < |ds| ==> ds[k].baseEnd <= lo || ds[k].baseStart >= hi
  }

  /**
   * An UNCHANGED region: a non-empty stretch of base that no diff of either
   * side touches, holding the base lines, with left-biased mapped ranges.
   */
  predicate UnchangedOK(r: MergeRegion, base: seq<string>, ld: seq<DiffRegion>, rd: seq<DiffRegion>)
  {
    r.regionType.Unchanged?
    && 0 <= r.baseStart < r.baseEnd <= |base|
    && r.lines == base[r.baseStart..r.baseEnd]
    && Untouched(ld, r.baseStart, r.baseEnd) && Untouched(rd, r.baseStart, r.baseEnd)
    && r.leftStart == MapRef(r.baseStart, ld, false) && r.leftEnd == MapRef(r.baseEnd, ld, false)
    && r.rightStart == MapRef(r.baseStart, rd, false) && r.rightEnd == MapRef(r.baseEnd, rd, false)
    && r.baseLines == [] && r.leftLines == [] && r.rightLines == []
  }

  /**
   * A hunk: a maximal stretch of base covered without a break by diffs of
   * either side, classified by which sides have a diff inside it and whether
   * their mapped lines agree.
   */
  predicate HunkOK(r: MergeRegion, base: seq<string>, left: seq<string>, right: seq<string>,
                   ld: seq<DiffRegion>, rd: seq<DiffRegion>)
  {
    var hasL := Involves(ld, r.baseStart, r.baseEnd);
    var hasR := Involves(rd, r.baseStart, r.baseEnd);
    0 <= r.baseStart <= r.baseEnd <= |base|
    && (hasL || hasR)
    && ClearBefore(ld, r.baseStart) && ClearBefore(rd, r.baseStart)
    && (forall q :: r.baseStart <= q < r.baseEnd ==> Open(ld, q) || Open(rd, q))
    && !Open(ld, r.baseEnd) && !Open(rd, r.baseEnd)
    && r.leftStart == MapRef(r.baseStart, ld, false) && r.leftEnd == MapRef(r.baseEnd, ld, true)
    && r.rightStart == MapRef(r.baseStart, rd, false) && r.rightEnd == MapRef(r.baseEnd, rd, true)
    && r.baseLines == base[r.baseStart..r.baseEnd]
    && r.leftLines == Slice(left, r.leftStart, r.leftEnd)
    && r.rightLines == Slice(right, r.rightStart, r.rightEnd)
    && (r.regionType == LeftChanged <==> hasL && !hasR)
    && (r.regionType == RightChanged <==> !hasL && hasR)
    && (r.regionType == BothChangedSame <==> hasL && hasR && r.leftLines == r.rightLines)
    && (r.regionType == MergeRegionType.Conflict <==> hasL && hasR && r.leftLines != r.rightLines)
    && r.lines == (if r.regionType == RightChanged then r.rightLines
                   else if r.regionType == MergeRegionType.Conflict then []
                   else r.leftLines)
  }

  predicate RegionOK(r: MergeRegion, base: seq<string>, left: seq<string>, right: seq<string>,
                     ld: seq<DiffRegion>, rd: seq<DiffRegion>)
  {
    if r.regionType.Unchanged? then UnchangedOK(r, base, ld, rd) else HunkOK(r, base, left, right, ld, rd)
  }

  /** The regions' base ranges follow each other without gap or overlap over `0..c`. */
  predicate Tiles(rs: seq<MergeRegion>, c: int)
  {
    (rs == [] ==> c == 0)
    && (rs != [] ==> rs[0].baseStart == 0 && rs[|rs| - 1].baseEnd == c)
    && (forall k :: 0 <= k < |rs| ==> rs[k].baseStart <= rs[k].baseEnd)
    && (forall k :: 0 <= k < |rs| - 1 ==> rs[k].baseEnd == rs[k + 1].baseStart)
  }

  predicate NoAdjacentUnchanged(rs: seq<MergeRegion>)
  {
    forall k :: 0 <= k < |rs| - 1 ==> !(rs[k].regionType.Unchanged? && rs[k + 1].regionType.Unchanged?)
  }

  /** Some hunk among the regions contains the diff's base range. */
  predicate CoveredBy(rs: seq<MergeRegion>, d: DiffRegion)
  {
    exists j :: 0 <= j < |rs| && !rs[j].regionType.Unchanged?
      && rs[j].baseStart <= d.baseStart && d.baseEnd <= rs[j].baseEnd
  }

  /** The hunk the sweep emits when a group of changes closes over `hs..he`. */
  function Classify(hs: int, he: int, lS: int, lE: int, rS: int, rE: int,
                    base: seq<string>, left: seq<string>, right: seq<string>, hasL: bool, hasR: bool): MergeRegion
  {
    var l := Slice(left, lS, lE);
    var r := Slice(right, rS, rE);
    var b := Slice(base, hs, he);
    if hasL && !hasR then MergeRegion(LeftChanged, hs, he, lS, lE, rS, rE, l, b, l, r)
    else if !hasL && hasR then MergeRegion(RightChanged, hs, he, lS, lE, rS, rE, r, b, l, r)
    else if l == r then MergeRegion(BothChangedSame, hs, he, lS, lE, rS, rE, l, b, l, r)
    else MergeRegion(MergeRegionType.Conflict, hs, he, lS, lE, rS, rE, [], b, l, r)
  }

  /** The UNCHANGED region over `a..b`. */
  function UnchangedAt(base: seq<string>, ld: seq<DiffRegion>, rd: seq<DiffRegion>, a: int, b: int): MergeRegion
  {
    MergeRegion(MergeRegionType.Unchanged, a, b,
      MapRef(a, ld, false), MapRef(b, ld, false), MapRef(a, rd, false), MapRef(b, rd, false),
      Slice(base, a, b), [], [], [])
  }

  /** The hunk over `hs..he`, with left-biased starts and right-biased ends. */
  function HunkAt(base: seq<string>, left: seq<string>, right: seq<string>,
                  ld: seq<DiffRegion>, rd: seq<DiffRegion>, hs: int, he: int, hasL: bool, hasR: bool): MergeRegion
  {
    Classify(hs, he, MapRef(hs, ld, false), MapRef(he, ld, true), MapRef(hs, rd, false), MapRef(he, rd, true),
      base, left, right, hasL, hasR)
  }

  /** `basePos` is the last event position visited before `p`. */
  predicate PosInv(n: int, p: int, basePos: int)
  {
    0 <= basePos <= n && basePos <= p <= n + 1 && (p == 0 || basePos < p)
  }

  predicate QuietInv(ld: seq<DiffRegion>, rd: seq<DiffRegion>, n: int, basePos: int, p: int)
  {
    forall q :: basePos < q < p ==> !HasEventAt(ld, rd, n, q)
  }

  /** The active sets hold the open diffs, and a hunk is open exactly while some diff is. */
  predicate ActiveInv(ld: seq<DiffRegion>, rd: seq<DiffRegion>, p: int,
                      activeL: set<int>, activeR: set<int>, inHunk: bool)
  {
    activeL == ActiveAt(ld, p) && activeR == ActiveAt(rd, p)
    && (inHunk <==> activeL != {} || activeR != {})
  }

  /** An open hunk started where nothing was open, has been covered since, and involves the diffs started in it. */
  predicate HunkInv(ld: seq<DiffRegion>, rd: seq<DiffRegion>, p: int, basePos: int,
                    inHunk: bool, hunkStart: int, involvedL: set<int>, involvedR: set<int>)
  {
    (inHunk ==>
       0 <= hunkStart <= basePos
       && involvedL == StartedIn(ld, hunkStart, p) && involvedR == StartedIn(rd, hunkStart, p)
       && (involvedL != {} || involvedR != {})
       && ClearBefore(ld, hunkStart) && ClearBefore(rd, hunkStart)
       && (forall q :: hunkStart <= q < p ==> Open(ld, q) || Open(rd, q)))
    && (!inHunk ==> involvedL == {} && involvedR == {})
  }

  predicate RawInv(base: seq<string>, left: seq<string>, right: seq<string>,
                   ld: seq<DiffRegion>, rd: seq<DiffRegion>, raw: seq<MergeRegion>, c: int, lastMayBeUnchanged: bool)
  {
    Tiles(raw, c) && AllOK(raw, base, left, right, ld, rd) && NoAdjacentUnchanged(raw)
    && (raw != [] && raw[|raw| - 1].regionType.Unchanged? ==> lastMayBeUnchanged)
  }

  /** Every diff started before `p` lies in an emitted hunk, unless it belongs to the open one. */
  predicate CoverInv(ld: seq<DiffRegion>, rd: seq<DiffRegion>, raw: seq<MergeRegion>, p: int, inHunk: bool, hunkStart: int)
  {
    (forall k ::
       0 <= k < |ld| && ld[k].baseStart < p && !(inHunk && hunkStart <= ld[k].baseStart) ==> CoveredBy(raw, ld[k]))
    && (forall k ::
          0 <= k < |rd| && rd[k].baseStart < p && !(inHunk && hunkStart <= rd[k].baseStart) ==> CoveredBy(raw, rd[k]))
  }

  /** The sweep's state before the events at position `p`. */
  predicate SweepInv(base: seq<string>, left: seq<string>, right: seq<string>,
                     ld: seq<DiffRegion>, rd: seq<DiffRegion>,
                     p: int, basePos: int, inHunk: bool, hunkStart: int,
                     activeL: set<int>, activeR: set<int>, involvedL: set<int>, involvedR: set<int>,
                     raw: seq<MergeRegion>)
  {
    PosInv(|base|, p, basePos) && QuietInv(ld, rd, |base|, basePos, p)
    && ActiveInv(ld, rd, p, activeL, activeR, inHunk)
    && HunkInv(ld, rd, p, basePos, inHunk, hunkStart, involvedL, involvedR)
    && RawInv(base, left, right, ld, rd, raw, if inHunk then hunkStart else basePos, inHunk || p == |base| + 1)
    && CoverInv(ld, rd, raw, p, inHunk, hunkStart)
  }

  /**
   * `_merge_diff_regions`: a sweep over the base positions where diff events
   * happen. Unchanged stretches between hunks become UNCHANGED regions, each
   * maximal group of overlapping or touching diffs becomes one classified hunk,
   * and every diff of either side ends up inside a hunk.
   */
  method MergeDiffRegions(base: seq<string>, left: seq<string>, right: seq<string>,
                          ld: seq<DiffRegion>, rd: seq<DiffRegion>) returns (regions: seq<MergeRegion>)
    requires Spans(ld, |base|) && Spans(rd, |base|)
    ensures Tiles(regions, |base|)
    ensures forall k :: 0 <= k < |regions| ==> RegionOK(regions[k], base, left, right, ld, rd)
    ensures NoAdjacentUnchanged(regions)
    ensures forall k :: 0 <= k < |ld| ==> CoveredBy(regions, ld[k])
    ensures forall k :: 0 <= k < |rd| ==> CoveredBy(regions, rd[k])
  {
    var n := |base|;
    var raw: seq<MergeRegion> := [];
    var basePos := 0;
    var activeL: set<int> := {};
    var activeR: set<int> := {};
    var hunkStart := 0;
    var inHunk := false;
    var involvedL: set<int> := {};
    var involvedR: set<int> := {};
    var p := 0;
    SweepStart(base, left, right, ld, rd);
    while p <= n
      invariant SweepInv(base, left, right, ld, rd, p, basePos, inHunk, hunkStart,
                         activeL, activeR, involvedL, involvedR, raw)
    {
      if HasEventAt(ld, rd, n, p) {
        basePos, inHunk, hunkStart, activeL, activeR, involvedL, involvedR, raw :=
          SweepEvent(base, left, right, ld, rd, p, basePos, inHunk, hunkStart,
                     activeL, activeR, involvedL, involvedR, raw);
      } else {
        QuietStep(base, left, right, ld, rd, p, basePos, inHunk, hunkStart,
                  activeL, activeR, involvedL, involvedR, raw);
      }
      p := p + 1;
    }
    SweepEnd(base, left, right, ld, rd, basePos, inHunk, hunkStart,
             activeL, activeR, involvedL, involvedR, raw);
    regions := ConsolidateRegions(raw);
    ConsolidateIdentity(raw);
  }

  /** The UNCHANGED region over `a..b`, mapped to both sides with left bias. */
  method EmitUnchanged(base: seq<string>, ld: seq<DiffRegion>, rd: seq<DiffRegion>, a: int, b: int)
    returns (r: MergeRegion)
    ensures r == UnchangedAt(base, ld, rd, a, b)
  {
    var ls := MapBaseToOther(a, ld, false);
    var le := MapBaseToOther(b, ld, false);
    var rs := MapBaseToOther(a, rd, false);
    var re := MapBaseToOther(b, rd, false);
    r := MergeRegion(MergeRegionType.Unchanged, a, b, ls, le, rs, re, Slice(base, a, b), [], [], []);
  }

  /** The classified hunk over `hs..he`: starts mapped with left bias, ends with right bias. */
  method EmitHunk(base: seq<string>, left: seq<string>, right: seq<string>,
                  ld: seq<DiffRegion>, rd: seq<DiffRegion>, hs: int, he: int, hasL: bool, hasR: bool)
    returns (h: MergeRegion)
    ensures h == HunkAt(base, left, right, ld, rd, hs, he, hasL, hasR)
  {
    var lS := MapBaseToOther(hs, ld, false);
    var lE := MapBaseToOther(he, ld, true);
    var rS := MapBaseToOther(hs, rd, false);
    var rE := MapBaseToOther(he, rd, true);
    h := Classify(hs, he, lS, lE, rS, rE, base, left, right, hasL, hasR);
  }

  /**
   * One batch of the sweep: all events at base position `p`. The stretch since
   * the last event is emitted as UNCHANGED when no hunk is open, the diffs
   * starting at `p` join the active and involved sets (opening a hunk), those
   * ending at `p` leave the active sets, and when both sides have nothing
   * active the hunk is closed and classified.
   */
  method SweepEvent(base: seq<string>, left: seq<string>, right: seq<string>,
                    ld: seq<DiffRegion>, rd: seq<DiffRegion>,
                    p: int, basePos: int, inHunk: bool, hunkStart: int,
                    activeL: set<int>, activeR: set<int>, involvedL: set<int>, involvedR: set<int>,
                    raw: seq<MergeRegion>)
    returns (basePos1: int, inHunk1: bool, hunkStart1: int,
             activeL1: set<int>, activeR1: set<int>, involvedL1: set<int>, involvedR1: set<int>,
             raw1: seq<MergeRegion>)
    requires Spans(ld, |base|) && Spans(rd, |base|)
    requires SweepInv(base, left, right, ld, rd, p, basePos, inHunk, hunkStart, activeL, activeR, involvedL, involvedR, raw)
    requires p <= |base| && HasEventAt(ld, rd, |base|, p)
    ensures basePos1 == p
    ensures SweepInv(base, left, right, ld, rd, p + 1, basePos1, inHunk1, hunkStart1,
                     activeL1, activeR1, involvedL1, involvedR1, raw1)
  {
    var rawE := raw;
    if p > basePos && !inHunk {
      var u := EmitUnchanged(base, ld, rd, basePos, p);
      rawE := raw + [u];
    }
    basePos1 := p;
    var startsL := StartsAt(ld, p);
    var startsR := StartsAt(rd, p);
    var startsHunk := !inHunk && (startsL != {} || startsR != {});
    hunkStart1 := if startsHunk then p else hunkStart;
    activeL1 := (activeL + startsL) - EndsAt(ld, p);
    activeR1 := (activeR + startsR) - EndsAt(rd, p);
    var closes := (inHunk || startsHunk) && activeL1 == {} && activeR1 == {};
    inHunk1 := (inHunk || startsHunk) && !closes;
    raw1 := rawE;
    if closes {
      var h := EmitHunk(base, left, right, ld, rd, hunkStart1, p, involvedL + startsL != {}, involvedR + startsR != {});
      raw1 := rawE + [h];
      involvedL1, involvedR1 := {}, {};
    } else {
      involvedL1, involvedR1 := involvedL + startsL, involvedR + startsR;
    }
    EventStep(base, left, right, ld, rd, p, basePos, inHunk, hunkStart,
              activeL, activeR, involvedL, involvedR, raw, rawE,
              inHunk1, hunkStart1, activeL1, activeR1, involvedL1, involvedR1, raw1);
  }

  lemma ActiveStep(ds: seq<DiffRegion>, p: int)
    requires forall k :: 0 <= k < |ds| ==> ds[k].baseStart <= ds[k].baseEnd
    ensures ActiveAt(ds, p + 1) == (ActiveAt(ds, p) + StartsAt(ds, p)) - EndsAt(ds, p)
    ensures forall lo :: lo <= p ==> StartedIn(ds, lo, p + 1) == StartedIn(ds, lo, p) + StartsAt(ds, p)
    ensures StartedIn(ds, p, p) == {}
  {
  }

  lemma OpenIff(ds: seq<DiffRegion>, q: int)
    ensures Open(ds, q) <==> ActiveAt(ds, q + 1) != {}
  {
    if Open(ds, q) {
      var k :| 0 <= k < |ds| && ds[k].baseStart <= q < ds[k].baseEnd;
      assert k in ActiveAt(ds, q + 1);
    }
  }

  lemma ClearIff(ds: seq<DiffRegion>, b: int)
    ensures ClearBefore(ds, b) <==> ActiveAt(ds, b) == {}
  {
    if !ClearBefore(ds, b) {
      var k :| 0 <= k < |ds| && ds[k].baseStart < b <= ds[k].baseEnd;
      assert k in ActiveAt(ds, b);
    }
  }

  /** When nothing is open after `p`, the diffs started in `hs..p` are exactly those lying within it. */
  lemma InvolvedIff(ds: seq<DiffRegion>, hs: int, p: int)
    requires forall k :: 0 <= k < |ds| ==> ds[k].baseStart <= ds[k].baseEnd
    requires ActiveAt(ds, p + 1) == {}
    ensures StartedIn(ds, hs, p + 1) != {} <==> Involves(ds, hs, p)
    ensures forall k :: k in StartedIn(ds, hs, p + 1) ==> ds[k].baseEnd <= p
  {
    forall k | k in StartedIn(ds, hs, p + 1) ensures ds[k].baseEnd <= p {
      assert k !in ActiveAt(ds, p + 1);
    }
    if Involves(ds, hs, p) {
      var k :| 0 <= k < |ds| && hs <= ds[k].baseStart && ds[k].baseEnd <= p;
      assert k in StartedIn(ds, hs, p + 1);
    }
  }

  lemma ActivePastEnd(ds: seq<DiffRegion>, n: int)
    requires Spans(ds, n)
    ensures ActiveAt(ds, n + 1) == {}
  {

  }

  /** Without starts at `p`, a diff ending at `p` was already open when the sweep arrived. */
  lemma EndsWereActive(ds: seq<DiffRegion>, p: int)
    requires forall k :: 0 <= k < |ds| ==> ds[k].baseStart <= ds[k].baseEnd
    requires StartsAt(ds, p) == {}
    ensures EndsAt(ds, p) <= ActiveAt(ds, p)
  {
    forall k | k in EndsAt(ds, p) ensures k in ActiveAt(ds, p) {
      assert k !in StartsAt(ds, p);
    }
  }

  /** A hunk closed at `he` after opening at `hs` satisfies the hunk properties. */
  lemma ClassifyOK(base: seq<string>, left: seq<string>, right: seq<string>,
                   ld: seq<DiffRegion>, rd: seq<DiffRegion>, hs: int, he: int, hasL: bool, hasR: bool)
    requires 0 <= hs <= he <= |base|
    requires hasL == Involves(ld, hs, he) && hasR == Involves(rd, hs, he) && (hasL || hasR)
    requires ClearBefore(ld, hs) && ClearBefore(rd, hs)
    requires forall q :: hs <= q < he ==> Open(ld, q) || Open(rd, q)
    requires !Open(ld, he) && !Open(rd, he)
    ensures HunkOK(HunkAt(base, left, right, ld, rd, hs, he, hasL, hasR), base, left, right, ld, rd)
  {
  }

  /** Closing a hunk over `hs..p` covers every diff started in it. */
  lemma CoverClose(ds: seq<DiffRegion>, raw: seq<MergeRegion>, h: MergeRegion, hs: int, p: int)
    requires forall k :: 0 <= k < |ds| ==> ds[k].baseStart <= ds[k].baseEnd
    requires ActiveAt(ds, p + 1) == {}
    requires !h.regionType.Unchanged? && h.baseStart == hs && h.baseEnd == p
    requires forall k :: 0 <= k < |ds| && ds[k].baseStart < p + 1 && !(hs <= ds[k].baseStart) ==> CoveredBy(raw, ds[k])
    ensures forall k :: 0 <= k < |ds| && ds[k].baseStart < p + 1 ==> CoveredBy(raw + [h], ds[k])
  {
    CoveredAppend(raw, h);
    InvolvedIff(ds, hs, p);
    forall k | 0 <= k < |ds| && ds[k].baseStart < p + 1 ensures CoveredBy(raw + [h], ds[k]) {
      if hs <= ds[k].baseStart {
        assert k in StartedIn(ds, hs, p + 1);
        assert (raw + [h])[|raw|] == h;
      }
    }
  }

  /** The optional UNCHANGED region at the top of an event step. */
  lemma EmitStep(base: seq<string>, left: seq<string>, right: seq<string>, ld: seq<DiffRegion>, rd: seq<DiffRegion>,
                 p: int, basePos: int, inHunk: bool, hunkStart: int,
                 activeL: set<int>, activeR: set<int>, involvedL: set<int>, involvedR: set<int>,
                 raw: seq<MergeRegion>, rawE: seq<MergeRegion>)
    requires Spans(ld, |base|) && Spans(rd, |base|)
    requires SweepInv(base, left, right, ld, rd, p, basePos, inHunk, hunkStart, activeL, activeR, involvedL, involvedR, raw)
    requires p <= |base|
    requires rawE == if p > basePos && !inHunk then raw + [UnchangedAt(base, ld, rd, basePos, p)] else raw
    ensures RawInv(base, left, right, ld, rd, rawE, if inHunk then hunkStart else p, true)
    ensures CoverInv(ld, rd, rawE, p, inHunk, hunkStart)
  {
    if p > basePos && !inHunk {
      var u := UnchangedAt(base, ld, rd, basePos, p);
      UntouchedGap(ld, rd, |base|, basePos, p);
      assert UnchangedOK(u, base, ld, rd);
      AppendRegion(base, left, right, ld, rd, raw, u);
    }
  }

  /** The events at `p`: the optional UNCHANGED region, the batch of starts and ends, and a hunk that closes. */
  lemma EventStep(base: seq<string>, left: seq<string>, right: seq<string>, ld: seq<DiffRegion>, rd: seq<DiffRegion>,
                  p: int, basePos: int, inHunk: bool, hunkStart: int,
                  activeL: set<int>, activeR: set<int>, involvedL: set<int>, involvedR: set<int>,
                  raw: seq<MergeRegion>, rawE: seq<MergeRegion>,
                  inHunk1: bool, hunkStart1: int, activeL1: set<int>, activeR1: set<int>,
                  involvedL1: set<int>, involvedR1: set<int>, raw1: seq<MergeRegion>)
    requires Spans(ld, |base|) && Spans(rd, |base|)
    requires SweepInv(base, left, right, ld, rd, p, basePos, inHunk, hunkStart, activeL, activeR, involvedL, involvedR, raw)
    requires p <= |base| && HasEventAt(ld, rd, |base|, p)
    requires rawE == if p > basePos && !inHunk then raw + [UnchangedAt(base, ld, rd, basePos, p)] else raw
    requires activeL1 == (activeL + StartsAt(ld, p)) - EndsAt(ld, p)
    requires activeR1 == (activeR + StartsAt(rd, p)) - EndsAt(rd, p)
    requires (
      var startsHunk := !inHunk && (StartsAt(ld, p) != {} || StartsAt(rd, p) != {});
      var closes := (inHunk || startsHunk) && activeL1 == {} && activeR1 == {};
      hunkStart1 == (if startsHunk then p else hunkStart)
      && inHunk1 == ((inHunk || startsHunk) && !closes)
      && involvedL1 == (if closes then {} else involvedL + StartsAt(ld, p))
      && involvedR1 == (if closes then {} else involvedR + StartsAt(rd, p))
      && raw1 == if closes then rawE + [HunkAt(base, left, right, ld, rd, hunkStart1, p,
                                               involvedL + StartsAt(ld, p) != {}, involvedR + StartsAt(rd, p) != {})]
                 else rawE)
    ensures SweepInv(base, left, right, ld, rd, p + 1, p, inHunk1, hunkStart1,
                     activeL1, activeR1, involvedL1, involvedR1, raw1)
  {
    var startsHunk := !inHunk && (StartsAt(ld, p) != {} || StartsAt(rd, p) != {});
    ActiveStep(ld, p);
    ActiveStep(rd, p);
    EmitStep(base, left, right, ld, rd, p, basePos, inHunk, hunkStart,
             activeL, activeR, involvedL, involvedR, raw, rawE);
    if (inHunk || startsHunk) && activeL1 == {} && activeR1 == {} {
      CloseStep(base, left, right, ld, rd, p, basePos, inHunk, hunkStart,
                activeL, activeR, involvedL, involvedR, rawE, hunkStart1);
    } else if inHunk || startsHunk {
      ContinueStep(base, left, right, ld, rd, p, basePos, inHunk, hunkStart,
                   activeL, activeR, involvedL, involvedR, raw, rawE, hunkStart1);
    } else {
      LoneStep(base, left, right, ld, rd, p, basePos, inHunk, hunkStart,
               activeL, activeR, involvedL, involvedR, raw, rawE);
    }
  }

  lemma CloseStep(base: seq<string>, left: seq<string>, right: seq<string>, ld: seq<DiffRegion>, rd: seq<DiffRegion>,
                  p: int, basePos: int, inHunk: bool, hunkStart: int,
                  activeL: set<int>, activeR: set<int>, involvedL: set<int>, involvedR: set<int>,
                  rawE: seq<MergeRegion>, hs: int)
    requires Spans(ld, |base|) && Spans(rd, |base|)
    requires HunkInv(ld, rd, p, basePos, inHunk, hunkStart, involvedL, involvedR)
    requires ActiveInv(ld, rd, p, activeL, activeR, inHunk)
    requires 0 <= basePos <= p <= |base|
    requires RawInv(base, left, right, ld, rd, rawE, if inHunk then hunkStart else p, true)
    requires CoverInv(ld, rd, rawE, p, inHunk, hunkStart)
    requires inHunk || StartsAt(ld, p) != {} || StartsAt(rd, p) != {}
    requires hs == if inHunk then hunkStart else p
    requires ActiveAt(ld, p + 1) == {} && ActiveAt(rd, p + 1) == {}
    ensures SweepInv(base, left, right, ld, rd, p + 1, p, false, hs, {}, {}, {}, {},
                     rawE + [HunkAt(base, left, right, ld, rd, hs, p,
                                    involvedL + StartsAt(ld, p) != {}, involvedR + StartsAt(rd, p) != {})])
  {
    ActiveStep(ld, p);
    ActiveStep(rd, p);
    if !inHunk {
      ClearIff(ld, p);
      ClearIff(rd, p);
    }
    assert involvedL + StartsAt(ld, p) == StartedIn(ld, hs, p + 1);
    assert involvedR + StartsAt(rd, p) == StartedIn(rd, hs, p + 1);
    var hasL := involvedL + StartsAt(ld, p) != {};
    var hasR := involvedR + StartsAt(rd, p) != {};
    CloseHunk(base, left, right, ld, rd, hs, p, hasL, hasR);
    var h := HunkAt(base, left, right, ld, rd, hs, p, hasL, hasR);
    assert RawInv(base, left, right, ld, rd, rawE + [h], p, false) by {
      AppendRegion(base, left, right, ld, rd, rawE, h);
    }
    assert CoverInv(ld, rd, rawE + [h], p + 1, false, hs) by {
      CoverClose(ld, rawE, h, hs, p);
      CoverClose(rd, rawE, h, hs, p);
    }
  }

  /** The hunk closing at `p` after opening at `hs` satisfies the hunk properties. */
  lemma CloseHunk(base: seq<string>, left: seq<string>, right: seq<string>, ld: seq<DiffRegion>, rd: seq<DiffRegion>,
                  hs: int, p: int, hasL: bool, hasR: bool)
    requires Spans(ld, |base|) && Spans(rd, |base|)
    requires 0 <= hs <= p <= |base|
    requires ActiveAt(ld, p + 1) == {} && ActiveAt(rd, p + 1) == {}
    requires ClearBefore(ld, hs) && ClearBefore(rd, hs)
    requires forall q :: hs <= q < p ==> Open(ld, q) || Open(rd, q)
    requires hasL == (StartedIn(ld, hs, p + 1) != {}) && hasR == (StartedIn(rd, hs, p + 1) != {})
    requires hasL || hasR
    ensures var h := HunkAt(base, left, right, ld, rd, hs, p, hasL, hasR);
      RegionOK(h, base, left, right, ld, rd) && !h.regionType.Unchanged? && h.baseStart == hs && h.baseEnd == p
  {
    OpenIff(ld, p);
    OpenIff(rd, p);
    InvolvedIff(ld, hs, p);
    InvolvedIff(rd, hs, p);
    ClassifyOK(base, left, right, ld, rd, hs, p, hasL, hasR);
  }

  lemma ContinueStep(base: seq<string>, left: seq<string>, right: seq<string>, ld: seq<DiffRegion>, rd: seq<DiffRegion>,
                     p: int, basePos: int, inHunk: bool, hunkStart: int,
                     activeL: set<int>, activeR: set<int>, involvedL: set<int>, involvedR: set<int>,
                     raw: seq<MergeRegion>, rawE: seq<MergeRegion>, hs: int)
    requires Spans(ld, |base|) && Spans(rd, |base|)
    requires SweepInv(base, left, right, ld, rd, p, basePos, inHunk, hunkStart, activeL, activeR, involvedL, involvedR, raw)
    requires p <= |base|
    requires RawInv(base, left, right, ld, rd, rawE, if inHunk then hunkStart else p, true)
    requires CoverInv(ld, rd, rawE, p, inHunk, hunkStart)
    requires inHunk || StartsAt(ld, p) != {} || StartsAt(rd, p) != {}
    requires hs == if inHunk then hunkStart else p
    requires ActiveAt(ld, p + 1) != {} || ActiveAt(rd, p + 1) != {}
    ensures SweepInv(base, left, right, ld, rd, p + 1, p, true, hs, ActiveAt(ld, p + 1), ActiveAt(rd, p + 1),
                     involvedL + StartsAt(ld, p), involvedR + StartsAt(rd, p), rawE)
  {
    ActiveStep(ld, p);
    ActiveStep(rd, p);
    OpenIff(ld, p);
    OpenIff(rd, p);
    if !inHunk {
      ClearIff(ld, p);
      ClearIff(rd, p);
    }
  }

  lemma LoneStep(base: seq<string>, left: seq<string>, right: seq<string>, ld: seq<DiffRegion>, rd: seq<DiffRegion>,
                 p: int, basePos: int, inHunk: bool, hunkStart: int,
                 activeL: set<int>, activeR: set<int>, involvedL: set<int>, involvedR: set<int>,
                 raw: seq<MergeRegion>, rawE: seq<MergeRegion>)
    requires Spans(ld, |base|) && Spans(rd, |base|)
    requires SweepInv(base, left, right, ld, rd, p, basePos, inHunk, hunkStart, activeL, activeR, involvedL, involvedR, raw)
    requires p <= |base| && HasEventAt(ld, rd, |base|, p)
    requires RawInv(base, left, right, ld, rd, rawE, p, true)
    requires CoverInv(ld, rd, rawE, p, false, hunkStart)
    requires !inHunk && StartsAt(ld, p) == {} && StartsAt(rd, p) == {}
    ensures p == |base|
    ensures SweepInv(base, left, right, ld, rd, p + 1, p, false, hunkStart, ActiveAt(ld, p + 1), ActiveAt(rd, p + 1),
                     involvedL + StartsAt(ld, p), involvedR + StartsAt(rd, p), rawE)
  {
    ActiveStep(ld, p);
    ActiveStep(rd, p);
    EndsWereActive(ld, p);
    EndsWereActive(rd, p);
    forall k | 0 <= k < |ld| ensures ld[k].baseStart != p {
      assert k !in StartsAt(ld, p);
    }
    forall k | 0 <= k < |rd| ensures rd[k].baseStart != p {
      assert k !in StartsAt(rd, p);
    }
  }

  /** A position without events changes nothing but the position. */
  lemma QuietStep(base: seq<string>, left: seq<string>, right: seq<string>, ld: seq<DiffRegion>, rd: seq<DiffRegion>,
                  p: int, basePos: int, inHunk: bool, hunkStart: int,
                  activeL: set<int>, activeR: set<int>, involvedL: set<int>, involvedR: set<int>,
                  raw: seq<MergeRegion>)
    requires Spans(ld, |base|) && Spans(rd, |base|)
    requires SweepInv(base, left, right, ld, rd, p, basePos, inHunk, hunkStart, activeL, activeR, involvedL, involvedR, raw)
    requires p <= |base| && !HasEventAt(ld, rd, |base|, p)
    ensures SweepInv(base, left, right, ld, rd, p + 1, basePos, inHunk, hunkStart, activeL, activeR, involvedL, involvedR, raw)
  {
    ActiveStep(ld, p);
    ActiveStep(rd, p);
    OpenIff(ld, p);
    OpenIff(rd, p);
    forall k | 0 <= k < |ld| ensures ld[k].baseStart != p {
      assert k !in StartsAt(ld, p);
    }
    forall k | 0 <= k < |rd| ensures rd[k].baseStart != p {
      assert k !in StartsAt(rd, p);
    }
  }

  /** Past the sentinel every diff has closed: the regions tile the whole base and cover every diff. */
  lemma SweepStart(base: seq<string>, left: seq<string>, right: seq<string>, ld: seq<DiffRegion>, rd: seq<DiffRegion>)
    requires Spans(ld, |base|) && Spans(rd, |base|)
    ensures SweepInv(base, left, right, ld, rd, 0, 0, false, 0, {}, {}, {}, {}, [])
  {
  }

  lemma SweepEnd(base: seq<string>, left: seq<string>, right: seq<string>, ld: seq<DiffRegion>, rd: seq<DiffRegion>,
                 basePos: int, inHunk: bool, hunkStart: int,
                 activeL: set<int>, activeR: set<int>, involvedL: set<int>, involvedR: set<int>,
                 raw: seq<MergeRegion>)
    requires Spans(ld, |base|) && Spans(rd, |base|)
    requires SweepInv(base, left, right, ld, rd, |base| + 1, basePos, inHunk, hunkStart,
                      activeL, activeR, involvedL, involvedR, raw)
    ensures Tiles(raw, |base|) && AllOK(raw, base, left, right, ld, rd) && NoAdjacentUnchanged(raw)
    ensures forall k :: 0 <= k < |ld| ==> CoveredBy(raw, ld[k])
    ensures forall k :: 0 <= k < |rd| ==> CoveredBy(raw, rd[k])
  {
    assert HasEventAt(ld, rd, |base|, |base|);
    ActivePastEnd(ld, |base|);
    ActivePastEnd(rd, |base|);
  }

  lemma UntouchedGap(ld: seq<DiffRegion>, rd: seq<DiffRegion>, n: int, a: int, b: int)
    requires Spans(ld, n) && Spans(rd, n)
    requires ActiveAt(ld, b) == {} && ActiveAt(rd, b) == {}
    requires forall q :: a < q < b ==> !HasEventAt(ld, rd, n, q)
    ensures Untouched(ld, a, b) && Untouched(rd, a, b)
  {
    forall k | 0 <= k < |ld| ensures ld[k].baseEnd <= a || ld[k].baseStart >= b {
      assert HasEventAt(ld, rd, n, ld[k].baseStart) by { assert k in StartsAt(ld, ld[k].baseStart); }
      assert HasEventAt(ld, rd, n, ld[k].baseEnd) by { assert k in EndsAt(ld, ld[k].baseEnd); }
      assert k !in ActiveAt(ld, b);
    }
    forall k | 0 <= k < |rd| ensures rd[k].baseEnd <= a || rd[k].baseStart >= b {
      assert HasEventAt(ld, rd, n, rd[k].baseStart) by { assert k in StartsAt(rd, rd[k].baseStart); }
      assert HasEventAt(ld, rd, n, rd[k].baseEnd) by { assert k in EndsAt(rd, rd[k].baseEnd); }
      assert k !in ActiveAt(rd, b);
    }
  }

  predicate AllOK(rs: seq<MergeRegion>, base: seq<string>, left: seq<string>, right: seq<string>,
                  ld: seq<DiffRegion>, rd: seq<DiffRegion>)
  {
    forall k :: 0 <= k < |rs| ==> RegionOK(rs[k], base, left, right, ld, rd)
  }

  /** Appending a region that starts where the tiling ends keeps every invariant on the regions. */
  lemma AppendRegion(base: seq<string>, left: seq<string>, right: seq<string>,
                     ld: seq<DiffRegion>, rd: seq<DiffRegion>, rs: seq<MergeRegion>, x: MergeRegion)
    requires Tiles(rs, x.baseStart) && x.baseStart <= x.baseEnd
    requires AllOK(rs, base, left, right, ld, rd) && RegionOK(x, base, left, right, ld, rd)
    requires NoAdjacentUnchanged(rs)
    requires !(rs != [] && rs[|rs| - 1].regionType.Unchanged? && x.regionType.Unchanged?)
    ensures Tiles(rs + [x], x.baseEnd)
    ensures AllOK(rs + [x], base, left, right, ld, rd)
    ensures NoAdjacentUnchanged(rs + [x])
    ensures forall d :: CoveredBy(rs, d) ==> CoveredBy(rs + [x], d)
  {
    TilesAppend(rs, x);
    AllOKAppend(base, left, right, ld, rd, rs, x);
    NoAdjacentAppend(rs, x);
    CoveredAppend(rs, x);
  }

  lemma TilesAppend(rs: seq<MergeRegion>, x: MergeRegion)
    requires Tiles(rs, x.baseStart) && x.baseStart <= x.baseEnd
    ensures Tiles(rs + [x], x.baseEnd)
  {
    var ts := rs + [x];
    assert forall k :: 0 <= k < |rs| ==> ts[k] == rs[k];
    assert ts[|rs|] == x;
  }

  lemma AllOKAppend(base: seq<string>, left: seq<string>, right: seq<string>,
                    ld: seq<DiffRegion>, rd: seq<DiffRegion>, rs: seq<MergeRegion>, x: MergeRegion)
    requires AllOK(rs, base, left, right, ld, rd) && RegionOK(x, base, left, right, ld, rd)
    ensures AllOK(rs + [x], base, left, right, ld, rd)
  {
    var ts := rs + [x];
    assert forall k :: 0 <= k < |rs| ==> ts[k] == rs[k];
    assert ts[|rs|] == x;
  }

  lemma NoAdjacentAppend(rs: seq<MergeRegion>, x: MergeRegion)
    requires NoAdjacentUnchanged(rs)
    requires !(rs != [] && rs[|rs| - 1].regionType.Unchanged? && x.regionType.Unchanged?)
    ensures NoAdjacentUnchanged(rs + [x])
  {
    var ts := rs + [x];
    assert forall k :: 0 <= k < |rs| ==> ts[k] == rs[k];
    assert ts[|rs|] == x;
  }

  lemma CoveredAppend(rs: seq<MergeRegion>, x: MergeRegion)
    ensures forall d :: CoveredBy(rs, d) ==> CoveredBy(rs + [x], d)
  {
    var ts := rs + [x];
    forall d | CoveredBy(rs, d) ensures CoveredBy(ts, d) {
      var j :| 0 <= j < |rs| && !rs[j].regionType.Unchanged?
        && rs[j].baseStart <= d.baseStart && d.baseEnd <= rs[j].baseEnd;
      assert ts[j] == rs[j];
    }
  }

  // ---------------------------------------------------------------- consolidation

  /** Two adjacent UNCHANGED regions fused into one; the optional line lists are dropped. */
  function Fuse(a: MergeRegion, b: MergeRegion): MergeRegion
  {
    MergeRegion(MergeRegionType.Unchanged, a.baseStart, b.baseEnd, a.leftStart, b.leftEnd,
                a.rightStart, b.rightEnd, a.lines + b.lines, [], [], [])
  }

  /** `_consolidate_regions` as a fold: `current` absorbs following UNCHANGED regions while it is UNCHANGED. */
  function ConsolidateFrom(current: MergeRegion, rest: seq<MergeRegion>): seq<MergeRegion>
    decreases |rest|
  {
    if rest == [] then [current]
    else if current.regionType.Unchanged? && rest[0].regionType.Unchanged? then
      ConsolidateFrom(Fuse(current, rest[0]), rest[1..])
    else [current] + ConsolidateFrom(rest[0], rest[1..])
  }

  function Consolidate(rs: seq<MergeRegion>): seq<MergeRegion>
  {
    if rs == [] then [] else ConsolidateFrom(rs[0], rs[1..])
  }

  /** All region lines, in order. */
  function FlatLines(rs: seq<MergeRegion>): seq<string>
  {
    if rs == [] then [] else rs[0].lines + FlatLines(rs[1..])
  }

  method ConsolidateRegions(regions: seq<MergeRegion>) returns (r: seq<MergeRegion>)
    ensures r == Consolidate(regions)
  {
    if |regions| == 0 {
      return regions;
    }
    var consolidated: seq<MergeRegion> := [];
    var current := regions[0];
    var i := 1;
    while i < |regions|
      invariant 1 <= i <= |regions|
      invariant consolidated + ConsolidateFrom(current, regions[i..]) == Consolidate(regions)
    {
      var region := regions[i];
      assert regions[i..][1..] == regions[i + 1..];
      if current.regionType == region.regionType && current.regionType == MergeRegionType.Unchanged {
        current := Fuse(current, region);
      } else {
        consolidated := consolidated + [current];
        current := region;
      }
      i := i + 1;
    }
    consolidated := consolidated + [current];
    r := consolidated;
  }

  lemma {:induction false} ConsolidateFromHead(current: MergeRegion, rest: seq<MergeRegion>)
    ensures |ConsolidateFrom(current, rest)| >= 1
    ensures ConsolidateFrom(current, rest)[0].regionType == current.regionType
    ensures ConsolidateFrom(current, rest)[0].baseStart == current.baseStart
    decreases |rest|
  {
    if rest != [] && current.regionType.Unchanged? && rest[0].regionType.Unchanged? {
      ConsolidateFromHead(Fuse(current, rest[0]), rest[1..]);
    }
  }

  lemma {:induction false} ConsolidateFromNoAdjacent(current: MergeRegion, rest: seq<MergeRegion>)
    ensures NoAdjacentUnchanged(ConsolidateFrom(current, rest))
    decreases |rest|
  {
    if rest == [] {
    } else if current.regionType.Unchanged? && rest[0].regionType.Unchanged? {
      ConsolidateFromNoAdjacent(Fuse(current, rest[0]), rest[1..]);
    } else {
      var tail := ConsolidateFrom(rest[0], rest[1..]);
      ConsolidateFromNoAdjacent(rest[0], rest[1..]);
      ConsolidateFromHead(rest[0], rest[1..]);
      assert forall k :: 1 <= k < |tail| + 1 ==> ([current] + tail)[k] == tail[k - 1];
    }
  }

  lemma {:induction false} FlatLinesAppend(a: seq<MergeRegion>, b: seq<MergeRegion>)
    ensures FlatLines(a + b) == FlatLines(a) + FlatLines(b)
  {
    if a == [] {
      assert a + b == b;
    } else {
      assert (a + b)[0] == a[0];
      assert (a + b)[1..] == a[1..] + b;
      FlatLinesAppend(a[1..], b);
    }
  }

  lemma {:induction false} ConsolidateFromLines(current: MergeRegion, rest: seq<MergeRegion>)
    ensures FlatLines(ConsolidateFrom(current, rest)) == current.lines + FlatLines(rest)
    decreases |rest|
  {
    if rest == [] {
      assert FlatLines([current]) == current.lines + FlatLines([]);
    } else if current.regionType.Unchanged? && rest[0].regionType.Unchanged? {
      ConsolidateFromLines(Fuse(current, rest[0]), rest[1..]);
    } else {
      ConsolidateFromLines(rest[0], rest[1..]);
      FlatLinesAppend([current], ConsolidateFrom(rest[0], rest[1..]));
      assert FlatLines([current]) == current.lines;
    }
  }

  /** The regions' base ranges follow each other without gap or overlap from `s` to `c`. */
  predicate Chain(rs: seq<MergeRegion>, s: int, c: int)
  {
    (rs == [] ==> s == c)
    && (rs != [] ==> rs[0].baseStart == s && rs[|rs| - 1].baseEnd == c)
    && (forall k :: 0 <= k < |rs| ==> rs[k].baseStart <= rs[k].baseEnd)
    && (forall k :: 0 <= k < |rs| - 1 ==> rs[k].baseEnd == rs[k + 1].baseStart)
  }

  lemma {:induction false} ConsolidateFromChain(current: MergeRegion, rest: seq<MergeRegion>, c: int)
    requires current.baseStart <= current.baseEnd
    requires Chain(rest, current.baseEnd, c)
    ensures Chain(ConsolidateFrom(current, rest), current.baseStart, c)
    decreases |rest|
  {
    if rest == [] {
    } else if current.regionType.Unchanged? && rest[0].regionType.Unchanged? {
      ChainTail(rest, current.baseEnd, c);
      ConsolidateFromChain(Fuse(current, rest[0]), rest[1..], c);
    } else {
      ChainTail(rest, current.baseEnd, c);
      ConsolidateFromChain(rest[0], rest[1..], c);
      ChainCons(current, ConsolidateFrom(rest[0], rest[1..]), c);
    }
  }

  lemma ChainTail(rs: seq<MergeRegion>, s: int, c: int)
    requires rs != [] && Chain(rs, s, c)
    ensures rs[0].baseStart == s && rs[0].baseStart <= rs[0].baseEnd && Chain(rs[1..], rs[0].baseEnd, c)
  {
  }

  lemma ChainCons(r: MergeRegion, rs: seq<MergeRegion>, c: int)
    requires r.baseStart <= r.baseEnd && Chain(rs, r.baseEnd, c)
    ensures Chain([r] + rs, r.baseStart, c)
  {
    assert forall k :: 1 <= k < |rs| + 1 ==> ([r] + rs)[k] == rs[k - 1];
  }

  /**
   * Consolidation leaves no two UNCHANGED regions next to each other, keeps the
   * output text, and keeps a tiling of the base a tiling.
   */
  lemma ConsolidateProps(rs: seq<MergeRegion>, c: int)
    ensures NoAdjacentUnchanged(Consolidate(rs))
    ensures FlatLines(Consolidate(rs)) == FlatLines(rs)
    ensures |Consolidate(rs)| <= |rs|
    ensures Tiles(rs, c) ==> Tiles(Consolidate(rs), c)
  {
    if rs != [] {
      ConsolidateFromNoAdjacent(rs[0], rs[1..]);
      ConsolidateFromLines(rs[0], rs[1..]);
      ConsolidateFromShorter(rs[0], rs[1..]);
      if Tiles(rs, c) {
        assert Chain(rs[1..], rs[0].baseEnd, c);
        ConsolidateFromChain(rs[0], rs[1..], c);
      }
    }
  }

  lemma {:induction false} ConsolidateFromShorter(current: MergeRegion, rest: seq<MergeRegion>)
    ensures |ConsolidateFrom(current, rest)| <= |rest| + 1
    decreases |rest|
  {
    if rest == [] {
    } else if current.regionType.Unchanged? && rest[0].regionType.Unchanged? {
      ConsolidateFromShorter(Fuse(current, rest[0]), rest[1..]);
    } else {
      ConsolidateFromShorter(rest[0], rest[1..]);
    }
  }

  lemma {:induction false} ConsolidateFromIdentity(current: MergeRegion, rest: seq<MergeRegion>)
    requires NoAdjacentUnchanged([current] + rest)
    ensures ConsolidateFrom(current, rest) == [current] + rest
    decreases |rest|
  {
    if rest != [] {
      var all := [current] + rest;
      assert all[0] == current && all[1] == rest[0];
      assert !(current.regionType.Unchanged? && rest[0].regionType.Unchanged?);
      forall k | 0 <= k < |rest| - 1
        ensures !(rest[k].regionType.Unchanged? && rest[k + 1].regionType.Unchanged?)
      {
        assert all[k + 1] == rest[k] && all[k + 2] == rest[k + 1];
      }
      assert [rest[0]] + rest[1..] == rest;
      ConsolidateFromIdentity(rest[0], rest[1..]);
    }
  }

  /** On regions with no two adjacent UNCHANGED ones, such as the sweep's, consolidation changes nothing. */
  lemma ConsolidateIdentity(rs: seq<MergeRegion>)
    requires NoAdjacentUnchanged(rs)
    ensures Consolidate(rs) == rs
  {
    if rs != [] {
      assert [rs[0]] + rs[1..] == rs;
      ConsolidateFromIdentity(rs[0], rs[1..]);
    }
  }
}
