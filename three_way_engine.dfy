/**
 * The public side of the three-way merge engine: `merge` (diff regions, sweep,
 * conflict creation under the strategy, merged text and per-line origins),
 * `apply_resolution` (resolve one conflict and rebuild the merged text) and
 * `get_conflict_preview`.
 */
module ThreeWayEngine {
  import opened Wrappers
  import opened TextUtil
  import opened Models
  import opened Opcodes
  import opened ThreeWay

  /** The engine's configuration: the strategy and the four conflict markers. */
  datatype Engine = Engine(strategy: MergeStrategy,
                           markerLeft: string, markerBase: string, markerSep: string, markerRight: string)

  /** The engine as constructed with default markers. */
  function NewEngine(strategy: MergeStrategy): (e: Engine)
    ensures e.strategy == strategy
    ensures e.markerLeft == "<<<<<<< LEFT" && e.markerBase == "||||||| BASE"
    ensures e.markerSep == "=======" && e.markerRight == ">>>>>>> RIGHT"
  {
    Engine(strategy, "<<<<<<< LEFT", "||||||| BASE", "=======", ">>>>>>> RIGHT")
  }

  /** A marker written as a line of its own. */
  function MarkerLine(m: string): string
  {
    m + "\n"
  }

  /** `_region_type_to_origin`. */
  function RegionTypeToOrigin(t: MergeRegionType): (o: ThreeWayLineOrigin)
    ensures o == ThreeWayLineOrigin.Conflict <==> t == MergeRegionType.Conflict
    ensures o == ThreeWayLineOrigin.Base <==> t == MergeRegionType.Unchanged
    ensures o != ThreeWayLineOrigin.Resolved
  {
    match t
    case Unchanged => ThreeWayLineOrigin.Base
    case LeftChanged => ThreeWayLineOrigin.Left
    case RightChanged => ThreeWayLineOrigin.Right
    case BothChangedSame => ThreeWayLineOrigin.Both
    case Conflict => ThreeWayLineOrigin.Conflict
  }

  /** `_create_conflict`: a fresh, unresolved conflict carrying the region's ranges and lines. */
  function CreateConflict(e: Engine, r: MergeRegion, index: int): (c: MergeConflict)
    ensures c.conflictId == index && c.resolution.None? && c.resolvedLines == [] && !c.IsResolved()
    ensures c.autoResolved <==> e.strategy != Manual
    ensures c.baseStart == r.baseStart && c.baseEnd == r.baseEnd
    ensures c.leftStart == r.leftStart && c.leftEnd == r.leftEnd
    ensures c.rightStart == r.rightStart && c.rightEnd == r.rightEnd
    ensures c.baseLines == r.baseLines && c.leftLines == r.leftLines && c.rightLines == r.rightLines
  {
    MergeConflict(index, r.baseStart, r.baseEnd, r.leftStart, r.leftEnd, r.rightStart, r.rightEnd,
                  r.baseLines, r.leftLines, r.rightLines, None, [], e.strategy != Manual)
  }

  /** The side an automatic strategy picks; MANUAL picks none. Ties go to the left. */
  function Choice(e: Engine, r: MergeRegion): (c: Option<ConflictResolution>)
    ensures c.None? <==> e.strategy == Manual
    ensures c.Some? ==> c.value == UseLeft || c.value == UseRight
    ensures e.strategy == FavorShorter ==>
      c == Some(if |r.leftLines| <= |r.rightLines| then UseLeft else UseRight)
    ensures e.strategy == FavorLonger ==>
      c == Some(if |r.leftLines| >= |r.rightLines| then UseLeft else UseRight)
  {
    match e.strategy
    case FavorLeft => Some(UseLeft)
    case FavorRight => Some(UseRight)
    case FavorShorter => Some(if |r.leftLines| <= |r.rightLines| then UseLeft else UseRight)
    case FavorLonger => Some(if |r.leftLines| >= |r.rightLines| then UseLeft else UseRight)
    case Manual => None
  }

  /** The MANUAL output of a conflict: left, base and right sections between four markers. */
  function MarkerBlock(e: Engine, r: MergeRegion): seq<string>
  {
    [MarkerLine(e.markerLeft)] + r.leftLines + [MarkerLine(e.markerBase)] + r.baseLines
    + [MarkerLine(e.markerSep)] + r.rightLines + [MarkerLine(e.markerRight)]
  }

  /**
   * `_resolve_conflict`: an automatic strategy takes a whole side and records
   * it as the resolution (the shorter or longer side for FAVOR_SHORTER /
   * FAVOR_LONGER); MANUAL clears `auto_resolved` and emits the marker block.
   * As written the chosen lines are not stored in `resolved_lines`;
   * `recordLines` switches on the correction that stores them.
   */
  function ResolveConflict(e: Engine, r: MergeRegion, c: MergeConflict, recordLines: bool)
    : (out: (seq<string>, MergeConflict))
    ensures e.strategy == Manual ==>
      out.0 == MarkerBlock(e, r) && out.1 == c.(autoResolved := false)
    ensures e.strategy != Manual ==>
      out.1 == c.(resolution := Choice(e, r), resolvedLines := if recordLines then out.0 else c.resolvedLines)
      && (Choice(e, r) == Some(UseLeft) ==> out.0 == r.leftLines)
      && (Choice(e, r) == Some(UseRight) ==> out.0 == r.rightLines)
    ensures e.strategy == FavorShorter ==> |out.0| == Min(|r.leftLines|, |r.rightLines|)
    ensures e.strategy == FavorLonger ==> |out.0| == Max(|r.leftLines|, |r.rightLines|)
  {
    match Choice(e, r)
    case Some(res) =>
      var lines := if res == UseLeft then r.leftLines else r.rightLines;
      (lines, c.(resolution := Some(res), resolvedLines := if recordLines then lines else c.resolvedLines))
    case None =>
      (MarkerBlock(e, r), c.(autoResolved := false))
  }

  /** The conflict `merge` records for the conflict region numbered `k`. */
  function ConflictFor(e: Engine, r: MergeRegion, k: int, recordLines: bool): MergeConflict
  {
    ResolveConflict(e, r, CreateConflict(e, r, k), recordLines).1
  }

  /** What `merge` writes for one region, given the number of conflicts before it. */
  function LinesFor(e: Engine, r: MergeRegion, k: int): seq<string>
  {
    if r.IsConflict() then ResolveConflict(e, r, CreateConflict(e, r, k), false).0 else r.lines
  }

  /** The lines as three-way lines of one origin. */
  function Tagged(lines: seq<string>, origin: ThreeWayLineOrigin, id: Option<int>): (t: seq<ThreeWayLine>)
    ensures |t| == |lines|
    ensures forall i :: 0 <= i < |t| ==> t[i] == ThreeWayLine(lines[i], origin, id)
  {
    seq(|lines|, i requires 0 <= i < |lines| => ThreeWayLine(lines[i], origin, id))
  }

  function TaggedFor(e: Engine, r: MergeRegion, k: int): seq<ThreeWayLine>
  {
    if r.IsConflict() then Tagged(LinesFor(e, r, k), ThreeWayLineOrigin.Conflict, Some(k))
    else Tagged(r.lines, RegionTypeToOrigin(r.regionType), None)
  }

  /** The conflict regions, in order. */
  function ConflictRegions(rs: seq<MergeRegion>): seq<MergeRegion>
  {
    if rs == [] then []
    else ConflictRegions(rs[..|rs| - 1]) + (if rs[|rs| - 1].IsConflict() then [rs[|rs| - 1]] else [])
  }

  /** The conflicts `merge` builds from the regions, numbered in order. */
  function ConflictsOf(e: Engine, rs: seq<MergeRegion>, recordLines: bool): seq<MergeConflict>
  {
    if rs == [] then []
    else
      var init := ConflictsOf(e, rs[..|rs| - 1], recordLines);
      init + (if rs[|rs| - 1].IsConflict() then [ConflictFor(e, rs[|rs| - 1], |init|, recordLines)] else [])
  }

  /** The merged text `merge` builds from the regions. */
  function MergedOf(e: Engine, rs: seq<MergeRegion>): seq<string>
  {
    if rs == [] then []
    else MergedOf(e, rs[..|rs| - 1]) + LinesFor(e, rs[|rs| - 1], |ConflictsOf(e, rs[..|rs| - 1], false)|)
  }

  /** The three-way lines `merge` builds from the regions. */
  function TaggedOf(e: Engine, rs: seq<MergeRegion>): seq<ThreeWayLine>
  {
    if rs == [] then []
    else TaggedOf(e, rs[..|rs| - 1]) + TaggedFor(e, rs[|rs| - 1], |ConflictsOf(e, rs[..|rs| - 1], false)|)
  }

  function CountAuto(cs: seq<MergeConflict>): nat
  {
    if cs == [] then 0 else (if cs[0].autoResolved then 1 else 0) + CountAuto(cs[1..])
  }

  /** What `merge` promises about its regions: the sweep's contract for the two diff lists. */
  predicate RegionsOK(rs: seq<MergeRegion>, base: seq<string>, left: seq<string>, right: seq<string>,
                      ld: seq<DiffRegion>, rd: seq<DiffRegion>)
  {
    Tiles(rs, |base|) && AllOK(rs, base, left, right, ld, rd) && NoAdjacentUnchanged(rs)
    && (forall k :: 0 <= k < |ld| ==> CoveredBy(rs, ld[k]))
    && (forall k :: 0 <= k < |rd| ==> CoveredBy(rs, rd[k]))
  }

  /**
   * `merge`: diff both sides against the base (the opcodes of each side are
   * the matcher's output), sweep them into regions, and walk the regions
   * building conflicts, merged lines and three-way lines.
   */
  method Merge(e: Engine, base: seq<string>, left: seq<string>, right: seq<string>,
               leftOps: seq<Opcode>, rightOps: seq<Opcode>) returns (result: MergeResult)
    requires OpcodesValid(leftOps, base, left) && OpcodesValid(rightOps, base, right)
    ensures RegionsOK(result.regions, base, left, right, DiffsOf(leftOps, base, left), DiffsOf(rightOps, base, right))
    ensures result.conflicts == ConflictsOf(e, result.regions, false)
    ensures result.mergedLines == MergedOf(e, result.regions)
    ensures result.threeWayLines == TaggedOf(e, result.regions)
    ensures result.hasConflicts <==> |result.conflicts| > 0
    ensures result.autoResolvedCount == CountAuto(result.conflicts)
  {
    var leftDiffs := ComputeDiffRegions(base, left, leftOps);
    var rightDiffs := ComputeDiffRegions(base, right, rightOps);
    DiffsSpan(leftDiffs, base, left);
    DiffsSpan(rightDiffs, base, right);
    var regions := MergeDiffRegions(base, left, right, leftDiffs, rightDiffs);
    var conflicts, merged, lines3 := BuildResult(e, regions);
    result := MergeResult(merged, conflicts, regions, lines3, |conflicts| > 0, CountAuto(conflicts));
  }

  /** The walk over the regions in `merge`: conflicts, merged lines and three-way lines. */
  method BuildResult(e: Engine, regions: seq<MergeRegion>)
    returns (conflicts: seq<MergeConflict>, merged: seq<string>, lines3: seq<ThreeWayLine>)
    ensures conflicts == ConflictsOf(e, regions, false)
    ensures merged == MergedOf(e, regions)
    ensures lines3 == TaggedOf(e, regions)
  {
    conflicts, merged, lines3 := [], [], [];
    var i := 0;
    while i < |regions|
      invariant 0 <= i <= |regions|
      invariant conflicts == ConflictsOf(e, regions[..i], false)
      invariant merged == MergedOf(e, regions[..i])
      invariant lines3 == TaggedOf(e, regions[..i])
    {
      var region := regions[i];
      assert regions[..i + 1][..i] == regions[..i];
      if region.regionType == MergeRegionType.Conflict {
        var conflict := CreateConflict(e, region, |conflicts|);
        var (resolved, updated) := ResolveConflict(e, region, conflict, false);
        conflicts := conflicts + [updated];
        merged := merged + resolved;
        lines3 := lines3 + Tagged(resolved, ThreeWayLineOrigin.Conflict, Some(updated.conflictId));
      } else {
        merged := merged + region.lines;
        lines3 := lines3 + Tagged(region.lines, RegionTypeToOrigin(region.regionType), None);
      }
      i := i + 1;
    }
    assert regions[..i] == regions;
  }

  /** The diffs of a well-formed list lie inside the base, as the sweep needs. */
  lemma DiffsSpan(ds: seq<DiffRegion>, base: seq<string>, other: seq<string>)
    requires DiffsWellFormed(ds, base, other)
    ensures Spans(ds, |base|)
  {
  }

  // ---------------------------------------------------------------- properties of merge

  /**
   * The k-th conflict is the one built from the k-th conflict region, and it
   * carries id k, so `get_conflict(k)` finds it.
   */
  lemma {:induction false} ConflictsOfShape(e: Engine, rs: seq<MergeRegion>, recordLines: bool)
    ensures |ConflictsOf(e, rs, recordLines)| == |ConflictRegions(rs)|
    ensures forall k :: 0 <= k < |ConflictsOf(e, rs, recordLines)| ==>
      ConflictsOf(e, rs, recordLines)[k] == ConflictFor(e, ConflictRegions(rs)[k], k, recordLines)
    ensures forall k :: 0 <= k < |ConflictsOf(e, rs, recordLines)| ==> ConflictsOf(e, rs, recordLines)[k].conflictId == k
    decreases |rs|
  {
    if rs != [] {
      ConflictsOfShape(e, rs[..|rs| - 1], recordLines);
    }
  }

  /**
   * What `merge` records for each conflict region, as written: id k and the
   * region's lines; under MANUAL no resolution, not auto-resolved, and the
   * four-marker block in the merged text; under an automatic strategy the
   * strategy's side as resolution, auto-resolved, the merged text showing
   * exactly that resolution's preview, and no resolved lines stored.
   */
  lemma ConflictOutcome(e: Engine, rs: seq<MergeRegion>)
    ensures |ConflictsOf(e, rs, false)| == |ConflictRegions(rs)|
    ensures forall k :: 0 <= k < |ConflictRegions(rs)| ==>
      ConflictsOf(e, rs, false)[k].conflictId == k && ConflictsOf(e, rs, false)[k].resolvedLines == []
      && ConflictsOf(e, rs, false)[k].leftLines == ConflictRegions(rs)[k].leftLines
      && ConflictsOf(e, rs, false)[k].rightLines == ConflictRegions(rs)[k].rightLines
      && ConflictsOf(e, rs, false)[k].baseLines == ConflictRegions(rs)[k].baseLines
    ensures e.strategy == Manual ==> forall k :: 0 <= k < |ConflictRegions(rs)| ==>
      ConflictsOf(e, rs, false)[k].resolution.None? && !ConflictsOf(e, rs, false)[k].autoResolved
      && LinesFor(e, ConflictRegions(rs)[k], k) == MarkerBlock(e, ConflictRegions(rs)[k])
    ensures e.strategy != Manual ==> forall k :: 0 <= k < |ConflictRegions(rs)| ==>
      ConflictsOf(e, rs, false)[k].resolution == Choice(e, ConflictRegions(rs)[k])
      && ConflictsOf(e, rs, false)[k].autoResolved
      && LinesFor(e, ConflictRegions(rs)[k], k)
         == ConflictsOf(e, rs, false)[k].GetPreview(ConflictsOf(e, rs, false)[k].resolution.value)
  {
    ConflictsOfShape(e, rs, false);
    forall k | 0 <= k < |ConflictRegions(rs)| ensures ConflictRegions(rs)[k].IsConflict() {
      ConflictRegionsAreConflicts(rs, k);
    }
  }

  lemma {:induction false} ConflictRegionsAreConflicts(rs: seq<MergeRegion>, k: int)
    requires 0 <= k < |ConflictRegions(rs)|
    ensures ConflictRegions(rs)[k].IsConflict()
    decreases |rs|
  {
    var init := rs[..|rs| - 1];
    if k < |ConflictRegions(init)| {
      ConflictRegionsAreConflicts(init, k);
    }
  }

  /** Every three-way line carries the merged line at the same position. */
  lemma {:induction false} TaggedMatchesMerged(e: Engine, rs: seq<MergeRegion>)
    ensures |TaggedOf(e, rs)| == |MergedOf(e, rs)|
    ensures forall i :: 0 <= i < |TaggedOf(e, rs)| ==> TaggedOf(e, rs)[i].content == MergedOf(e, rs)[i]
    decreases |rs|
  {
    if rs != [] {
      var init := rs[..|rs| - 1];
      TaggedMatchesMerged(e, init);
      var k := |ConflictsOf(e, init, false)|;
      var t0: seq<ThreeWayLine>, m0: seq<string> := TaggedOf(e, init), MergedOf(e, init);
      var t1: seq<ThreeWayLine>, m1: seq<string> := TaggedFor(e, rs[|rs| - 1], k), LinesFor(e, rs[|rs| - 1], k);
      assert TaggedOf(e, rs) == t0 + t1 && MergedOf(e, rs) == m0 + m1;
      forall i | 0 <= i < |t0| + |t1| ensures (t0 + t1)[i].content == (m0 + m1)[i] {
        if i >= |t0| {
          assert (t0 + t1)[i] == t1[i - |t0|] && (m0 + m1)[i] == m1[i - |t0|];
        }
      }
    }
  }

  /** Without conflict regions the merged text is the regions' own lines, in order. */
  lemma {:induction false} MergedWithoutConflicts(e: Engine, rs: seq<MergeRegion>)
    requires ConflictRegions(rs) == []
    ensures MergedOf(e, rs) == FlatLines(rs)
    ensures ConflictsOf(e, rs, false) == []
    decreases |rs|
  {
    if rs != [] {
      var init := rs[..|rs| - 1];
      assert ConflictRegions(init) == [];
      MergedWithoutConflicts(e, init);
      assert rs == init + [rs[|rs| - 1]];
      FlatLinesAppend(init, [rs[|rs| - 1]]);
      assert FlatLines([rs[|rs| - 1]]) == rs[|rs| - 1].lines;
    }
  }

  /**
   * Under MANUAL no conflict is resolved or counted as auto-resolved; under an
   * automatic strategy every conflict is resolved and auto-resolved.
   */
  lemma {:induction false} StrategyOutcome(e: Engine, rs: seq<MergeRegion>)
    ensures e.strategy == Manual ==>
      CountAuto(ConflictsOf(e, rs, false)) == 0
      && CountUnresolved(ConflictsOf(e, rs, false)) == |ConflictsOf(e, rs, false)|
    ensures e.strategy != Manual ==>
      CountAuto(ConflictsOf(e, rs, false)) == |ConflictsOf(e, rs, false)|
      && CountUnresolved(ConflictsOf(e, rs, false)) == 0
    decreases |rs|
  {
    if rs != [] {
      var init := rs[..|rs| - 1];
      StrategyOutcome(e, init);
      var cs := ConflictsOf(e, init, false);
      if rs[|rs| - 1].IsConflict() {
        var c := ConflictFor(e, rs[|rs| - 1], |cs|, false);
        CountsAppend(cs, c);
      } else {
        assert ConflictsOf(e, rs, false) == cs;
      }
    }
  }

  lemma {:induction false} CountsAppend(cs: seq<MergeConflict>, c: MergeConflict)
    ensures CountAuto(cs + [c]) == CountAuto(cs) + (if c.autoResolved then 1 else 0)
    ensures CountUnresolved(cs + [c]) == CountUnresolved(cs) + (if c.IsResolved() then 0 else 1)
  {
    if cs == [] {
      assert [] + [c] == [c];
    } else {
      assert (cs + [c])[0] == cs[0];
      assert (cs + [c])[1..] == cs[1..] + [c];
      CountsAppend(cs[1..], c);
    }
  }

  /**
   * When neither side changed anything, the regions are a single UNCHANGED
   * region spanning the base (none for an empty base), there is no conflict,
   * and the merged text is the base.
   */
  lemma NoDiffsMerge(e: Engine, rs: seq<MergeRegion>, base: seq<string>, left: seq<string>, right: seq<string>)
    requires RegionsOK(rs, base, left, right, [], [])
    ensures |base| == 0 ==> rs == []
    ensures |base| > 0 ==> |rs| == 1 && rs[0].regionType.Unchanged? && rs[0].lines == base
    ensures ConflictsOf(e, rs, false) == [] && MergedOf(e, rs) == base
  {
    NoDiffsAllUnchanged(rs, base, left, right);
    if |rs| == 1 {
      assert UnchangedOK(rs[0], base, [], []);
      assert rs[..0] == [];
      assert ConflictRegions(rs) == [];
      assert FlatLines(rs) == rs[0].lines + FlatLines([]);
    }
    MergedWithoutConflicts(e, rs);
  }

  /** Without diffs every region is UNCHANGED, so consolidation leaves at most one. */
  lemma NoDiffsAllUnchanged(rs: seq<MergeRegion>, base: seq<string>, left: seq<string>, right: seq<string>)
    requires RegionsOK(rs, base, left, right, [], [])
    ensures |rs| <= 1 && forall k :: 0 <= k < |rs| ==> rs[k].regionType.Unchanged?
  {
    forall k | 0 <= k < |rs| ensures rs[k].regionType.Unchanged? {
      assert RegionOK(rs[k], base, left, right, [], []);
    }
    FirstPairMixed(rs);
  }

  lemma FirstPairMixed(rs: seq<MergeRegion>)
    requires NoAdjacentUnchanged(rs)
    ensures |rs| >= 2 ==> !(rs[0].regionType.Unchanged? && rs[1].regionType.Unchanged?)
  {
  }

  // ---------------------------------------------------------------- previews

  /** `get_conflict_preview`: the lines a resolution would produce, nothing for UNRESOLVED and CUSTOM. */
  function GetConflictPreview(c: MergeConflict, resolution: ConflictResolution): seq<string>
  {
    c.GetPreview(resolution)
  }

  /**
   * The two "both" previews hold the same lines, both sides in full; every
   * preview is made of the conflict's own lines and UNRESOLVED and CUSTOM
   * preview as nothing.
   */
  lemma PreviewShape(c: MergeConflict, resolution: ConflictResolution)
    ensures multiset(GetConflictPreview(c, UseBothLeftFirst)) == multiset(GetConflictPreview(c, UseBothRightFirst))
            == multiset(c.leftLines) + multiset(c.rightLines)
    ensures GetConflictPreview(c, UseBothLeftFirst)[..|c.leftLines|] == GetConflictPreview(c, UseLeft)
    ensures GetConflictPreview(c, UseBothRightFirst)[..|c.rightLines|] == GetConflictPreview(c, UseRight)
    ensures multiset(GetConflictPreview(c, resolution))
            <= multiset(c.leftLines) + multiset(c.rightLines) + multiset(c.baseLines)
    ensures resolution == Unresolved || resolution == Custom ==> GetConflictPreview(c, resolution) == []
  {
  }

  // ---------------------------------------------------------------- apply_resolution

  /** The conflict region `apply_resolution` finds: the first CONFLICT region starting at `bs`. */
  function FirstConflictAt(rs: seq<MergeRegion>, bs: int, from: nat): (r: Option<nat>)
    requires from <= |rs|
    ensures r.Some? ==>
      from <= r.value < |rs| && rs[r.value].IsConflict() && rs[r.value].baseStart == bs
      && forall j :: from <= j < r.value ==> !(rs[j].IsConflict() && rs[j].baseStart == bs)
    ensures r.None? ==> forall j :: from <= j < |rs| ==> !(rs[j].IsConflict() && rs[j].baseStart == bs)
    decreases |rs| - from
  {
    if from == |rs| then None
    else if rs[from].IsConflict() && rs[from].baseStart == bs then Some(from)
    else FirstConflictAt(rs, bs, from + 1)
  }

  method FindConflictRegion(rs: seq<MergeRegion>, bs: int) returns (r: Option<nat>)
    ensures r == FirstConflictAt(rs, bs, 0)
  {
    var idx := 0;
    while idx < |rs|
      invariant 0 <= idx <= |rs|
      invariant FirstConflictAt(rs, bs, idx) == FirstConflictAt(rs, bs, 0)
    {
      if rs[idx].regionType == MergeRegionType.Conflict && rs[idx].baseStart == bs {
        return Some(idx);
      }
      idx := idx + 1;
    }
    return None;
  }

  /** The lines a resolution takes from the region; UNRESOLVED, and CUSTOM without lines, are refused. */
  function ResolvedLinesFor(r: MergeRegion, resolution: ConflictResolution, customLines: Option<seq<string>>)
    : (out: Result<seq<string>>)
    ensures out.Err? <==> resolution == Unresolved || (resolution == Custom && customLines.None?)
    ensures resolution == Custom && customLines.Some? ==> out == Ok(customLines.value)
  {
    match resolution
    case UseLeft => Ok(r.leftLines)
    case UseRight => Ok(r.rightLines)
    case UseBase => Ok(r.baseLines)
    case UseBothLeftFirst => Ok(r.leftLines + r.rightLines)
    case UseBothRightFirst => Ok(r.rightLines + r.leftLines)
    case Custom => if customLines.None? then Err("ValueError") else Ok(customLines.value)
    case Unresolved => Err("ValueError")
  }

  /** The lines a resolution takes are the lines `get_conflict_preview` shows for it. */
  lemma PreviewAgreesWithApply(e: Engine, r: MergeRegion, k: int, resolution: ConflictResolution,
                               customLines: Option<seq<string>>)
    requires resolution != Unresolved && resolution != Custom
    ensures ResolvedLinesFor(r, resolution, customLines) ==
            Ok(GetConflictPreview(ConflictFor(e, r, k, false), resolution))
  {
  }

  /** Python's `xs[i]` position for an index known to be below the length. */
  function PyIndex(i: int, n: int): int
  {
    if i < 0 then n + i else i
  }

  /** Some conflict has no resolution recorded (`has_conflicts` after a resolution). */
  function AnyUnresolved(cs: seq<MergeConflict>): (b: bool)
    ensures b <==> exists k :: 0 <= k < |cs| && cs[k].resolution.None?
  {
    if cs == [] then false
    else cs[0].resolution.None? || (assert forall k :: 1 <= k < |cs| ==> cs[k] == cs[1..][k - 1]; AnyUnresolved(cs[1..]))
  }

  /** The conflict as `apply_resolution` records it: resolved by hand to the given lines. */
  function Resolved(c: MergeConflict, resolution: ConflictResolution, lines: seq<string>): MergeConflict
  {
    c.(resolution := Some(resolution), resolvedLines := lines, autoResolved := false)
  }

  /**
   * `apply_resolution` as a function of its inputs: the errors it raises, in
   * the order it checks them, and otherwise the result with that one conflict
   * resolved and the merged text rebuilt as written.
   */
  function ApplySpec(e: Engine, result: MergeResult, conflictId: int, resolution: ConflictResolution,
                     customLines: Option<seq<string>>): Result<MergeResult>
  {
    var cs := result.conflicts;
    var idx := PyIndex(conflictId, |cs|);
    if conflictId >= |cs| then Err("ValueError")
    else if idx < 0 then Err("IndexError")
    else match FirstConflictAt(result.regions, cs[idx].baseStart, 0)
      case None => Err("ValueError")
      case Some(j) =>
        match ResolvedLinesFor(result.regions[j], resolution, customLines)
        case Err(msg) => Err(msg)
        case Ok(lines) =>
          var updated := cs[idx := Resolved(cs[idx], resolution, lines)];
          Ok(MergeResult(Rebuilt(e, result.regions, updated, false), updated, result.regions,
                         result.threeWayLines, AnyUnresolved(updated), result.autoResolvedCount))
  }

  method ApplyResolution(e: Engine, result: MergeResult, conflictId: int, resolution: ConflictResolution,
                         customLines: Option<seq<string>>) returns (out: Result<MergeResult>)
    ensures out == ApplySpec(e, result, conflictId, resolution, customLines)
  {
    if conflictId >= |result.conflicts| {
      return Err("ValueError");
    }
    var idx := PyIndex(conflictId, |result.conflicts|);
    if idx < 0 {
      return Err("IndexError");
    }
    var conflict := result.conflicts[idx];
    var regionIdx := FindConflictRegion(result.regions, conflict.baseStart);
    if regionIdx.None? {
      return Err("ValueError");
    }
    var region := result.regions[regionIdx.value];
    var lines := ResolvedLinesFor(region, resolution, customLines);
    if lines.Err? {
      return Err(lines.error);
    }
    var newConflicts := result.conflicts[idx := Resolved(conflict, resolution, lines.value)];
    var newMerged := RebuildMergedLines(e, result.regions, newConflicts);
    var hasConflicts := AnyUnresolved(newConflicts);
    out := Ok(MergeResult(newMerged, newConflicts, result.regions, result.threeWayLines,
                          hasConflicts, result.autoResolvedCount));
  }

  /**
   * The errors `apply_resolution` raises: an id at or past the number of
   * conflicts, an id below minus that number, no conflict region at the
   * conflict's base start, UNRESOLVED, and CUSTOM without lines.
   */
  lemma ApplyErrors(e: Engine, result: MergeResult, conflictId: int, resolution: ConflictResolution,
                    customLines: Option<seq<string>>)
    ensures conflictId >= |result.conflicts| ==>
      ApplySpec(e, result, conflictId, resolution, customLines) == Err("ValueError")
    ensures conflictId < -|result.conflicts| ==>
      ApplySpec(e, result, conflictId, resolution, customLines) == Err("IndexError")
    ensures -|result.conflicts| <= conflictId < |result.conflicts|
            && FirstConflictAt(result.regions, result.conflicts[PyIndex(conflictId, |result.conflicts|)].baseStart, 0).Some?
            ==> (ApplySpec(e, result, conflictId, resolution, customLines).Err?
                 <==> resolution == Unresolved || (resolution == Custom && customLines.None?))
  {
  }

  /**
   * A successful resolution resolves exactly the chosen conflict, with the
   * lines the resolution takes, and leaves every other conflict, the regions
   * and the three-way lines as they were; the unresolved count drops by one
   * when that conflict was unresolved.
   */
  lemma ApplyEffect(e: Engine, result: MergeResult, conflictId: int, resolution: ConflictResolution,
                    customLines: Option<seq<string>>)
    requires ApplySpec(e, result, conflictId, resolution, customLines).Ok?
    ensures var r := ApplySpec(e, result, conflictId, resolution, customLines).value;
      var idx := PyIndex(conflictId, |result.conflicts|);
      0 <= idx < |result.conflicts| && |r.conflicts| == |result.conflicts|
      && r.conflicts[idx].IsResolved() && r.conflicts[idx].resolution == Some(resolution)
      && (exists j :: 0 <= j < |result.regions| && result.regions[j].IsConflict()
            && result.regions[j].baseStart == result.conflicts[idx].baseStart
            && ResolvedLinesFor(result.regions[j], resolution, customLines) == Ok(r.conflicts[idx].resolvedLines))
      && (forall k :: 0 <= k < |r.conflicts| && k != idx ==> r.conflicts[k] == result.conflicts[k])
      && r.regions == result.regions && r.threeWayLines == result.threeWayLines
      && CountUnresolved(r.conflicts) + (if result.conflicts[idx].IsResolved() then 0 else 1)
         == CountUnresolved(result.conflicts)
  {
    var idx := PyIndex(conflictId, |result.conflicts|);
    var j := FirstConflictAt(result.regions, result.conflicts[idx].baseStart, 0).value;
    var lines := ResolvedLinesFor(result.regions[j], resolution, customLines).value;
    UnresolvedAfterUpdate(result.conflicts, idx, Resolved(result.conflicts[idx], resolution, lines));
  }

  lemma {:induction false} UnresolvedAfterUpdate(cs: seq<MergeConflict>, idx: nat, c: MergeConflict)
    requires idx < |cs| && c.IsResolved()
    ensures CountUnresolved(cs[idx := c]) + (if cs[idx].IsResolved() then 0 else 1) == CountUnresolved(cs)
  {
    if idx == 0 {
      assert cs[idx := c][1..] == cs[1..];
    } else {
      assert cs[idx := c][1..] == cs[1..][idx - 1 := c];
      UnresolvedAfterUpdate(cs[1..], idx - 1, c);
    }
  }

  /**
   * Resolving one conflict of a result `merge` produced, as written: the
   * merged text shows that conflict's lines (markers again when they are
   * empty) and every other conflict region as a marker block, whatever the
   * strategy was; conflicts remain open only under MANUAL with another
   * conflict left.
   */
  lemma ApplyToMergeResult(e: Engine, result: MergeResult, conflictId: int, resolution: ConflictResolution,
                           customLines: Option<seq<string>>)
    requires result.conflicts == ConflictsOf(e, result.regions, false)
    requires ApplySpec(e, result, conflictId, resolution, customLines).Ok?
    ensures var r := ApplySpec(e, result, conflictId, resolution, customLines).value;
      var idx := PyIndex(conflictId, |result.conflicts|);
      0 <= idx < |r.conflicts|
      && r.mergedLines == Reopened(e, result.regions, idx, r.conflicts[idx].resolvedLines)
      && (r.hasConflicts <==> e.strategy == Manual && |result.conflicts| > 1)
  {
    var idx := PyIndex(conflictId, |result.conflicts|);
    ApplyEffect(e, result, conflictId, resolution, customLines);
    var r := ApplySpec(e, result, conflictId, resolution, customLines).value;
    ConflictOutcome(e, result.regions);
    RebuiltReopened(e, result.regions, r.conflicts, idx, r.conflicts[idx].resolvedLines);
    if e.strategy == Manual && |result.conflicts| > 1 {
      var other := if idx == 0 then 1 else 0;
      assert r.conflicts[other].resolution.None?;
    }
  }

  // ---------------------------------------------------------------- _rebuild_merged_lines

  /** The marker block the rebuild writes for a conflict still open: left and right, no base section. */
  function RebuildBlock(e: Engine, r: MergeRegion): seq<string>
  {
    [MarkerLine(e.markerLeft)] + r.leftLines + [MarkerLine(e.markerSep)] + r.rightLines + [MarkerLine(e.markerRight)]
  }

  /**
   * What the rebuild writes for the conflict region matched with conflict `k`:
   * as written, the recorded lines when a resolution is set and they are not
   * empty, else the marker block; `keepEmpty` switches on the correction that
   * writes the recorded lines of every resolved conflict, even when empty.
   */
  function RebuildFor(e: Engine, r: MergeRegion, cs: seq<MergeConflict>, k: int, keepEmpty: bool): seq<string>
  {
    if 0 <= k < |cs| then
      (if cs[k].resolution.Some? && (keepEmpty || cs[k].resolvedLines != []) then cs[k].resolvedLines
       else RebuildBlock(e, r))
    else []
  }

  /** The merged text rebuilt over the regions, the k-th conflict region paired with the k-th conflict. */
  function Rebuilt(e: Engine, rs: seq<MergeRegion>, cs: seq<MergeConflict>, keepEmpty: bool): seq<string>
  {
    if rs == [] then []
    else
      var init := rs[..|rs| - 1];
      var r := rs[|rs| - 1];
      Rebuilt(e, init, cs, keepEmpty)
      + (if r.IsConflict() then RebuildFor(e, r, cs, |ConflictRegions(init)|, keepEmpty) else r.lines)
  }

  /** `_rebuild_merged_lines`, as written. */
  method RebuildMergedLines(e: Engine, regions: seq<MergeRegion>, conflicts: seq<MergeConflict>)
    returns (merged: seq<string>)
    ensures merged == Rebuilt(e, regions, conflicts, false)
  {
    merged := [];
    var conflictIdx := 0;
    var i := 0;
    while i < |regions|
      invariant 0 <= i <= |regions|
      invariant merged == Rebuilt(e, regions[..i], conflicts, false)
      invariant conflictIdx == Min(|ConflictRegions(regions[..i])|, |conflicts|)
    {
      var region := regions[i];
      assert regions[..i + 1][..i] == regions[..i];
      if region.regionType == MergeRegionType.Conflict {
        if conflictIdx < |conflicts| {
          var conflict := conflicts[conflictIdx];
          if conflict.resolution.Some? && conflict.resolvedLines != [] {
            merged := merged + conflict.resolvedLines;
          } else {
            merged := merged + RebuildBlock(e, region);
          }
          conflictIdx := conflictIdx + 1;
        }
      } else {
        merged := merged + region.lines;
      }
      i := i + 1;
    }
    assert regions[..i] == regions;
  }

  /**
   * A reference text for the rebuild: the regions' own lines, with conflict
   * region `idx` written as `lines` when they are not empty and every other
   * conflict region as the rebuild's marker block.
   */
  function Reopened(e: Engine, rs: seq<MergeRegion>, idx: int, lines: seq<string>): seq<string>
  {
    if rs == [] then []
    else
      var init := rs[..|rs| - 1];
      var r := rs[|rs| - 1];
      Reopened(e, init, idx, lines)
      + (if !r.IsConflict() then r.lines
         else if |ConflictRegions(init)| == idx && lines != [] then lines
         else RebuildBlock(e, r))
  }

  /**
   * The rebuild as written, for any conflict list covering the conflict
   * regions: when conflict `idx` alone may carry lines, the merged text is
   * the reference text with those lines.
   */
  lemma {:induction false} RebuiltReopened(e: Engine, rs: seq<MergeRegion>, cs: seq<MergeConflict>,
                                           idx: int, lines: seq<string>)
    requires |ConflictRegions(rs)| <= |cs|
    requires forall k :: 0 <= k < |ConflictRegions(rs)| && k != idx ==> cs[k].resolvedLines == []
    requires 0 <= idx < |ConflictRegions(rs)| ==> cs[idx].resolution.Some? && cs[idx].resolvedLines == lines
    ensures Rebuilt(e, rs, cs, false) == Reopened(e, rs, idx, lines)
    decreases |rs|
  {
    if rs != [] {
      var init := rs[..|rs| - 1];
      assert |ConflictRegions(init)| <= |ConflictRegions(rs)|;
      RebuiltReopened(e, init, cs, idx, lines);
    }
  }

  /**
   * Rebuilding a result straight from `merge`, as written, brings every
   * conflict back as a marker block, whatever the strategy chose.
   */
  lemma RebuildOfMergeResult(e: Engine, rs: seq<MergeRegion>)
    ensures Rebuilt(e, rs, ConflictsOf(e, rs, false), false) == Reopened(e, rs, -1, [])
  {
    ConflictOutcome(e, rs);
    RebuiltReopened(e, rs, ConflictsOf(e, rs, false), -1, []);
  }

  /** Without conflict regions the rebuild is the regions' own lines, in order. */
  lemma {:induction false} RebuiltWithoutConflicts(e: Engine, rs: seq<MergeRegion>, cs: seq<MergeConflict>)
    requires ConflictRegions(rs) == []
    ensures Rebuilt(e, rs, cs, false) == FlatLines(rs)
    decreases |rs|
  {
    if rs != [] {
      var init := rs[..|rs| - 1];
      assert ConflictRegions(init) == [];
      RebuiltWithoutConflicts(e, init, cs);
      assert rs == init + [rs[|rs| - 1]];
      FlatLinesAppend(init, [rs[|rs| - 1]]);
      assert FlatLines([rs[|rs| - 1]]) == rs[|rs| - 1].lines;
    }
  }

  // ---------------------------------------------------------------- findings

  /**
   * As written, a conflict resolved to an empty side (USE_LEFT where the left
   * deleted the block) is rebuilt as a marker block although it is resolved.
   */
  lemma EmptyResolutionRebuiltAsMarkers()
    ensures var e := NewEngine(Manual);
      var r := MergeRegion(MergeRegionType.Conflict, 0, 1, 0, 0, 0, 1, [], ["a\n"], [], ["b\n"]);
      var c := Resolved(CreateConflict(e, r, 0), UseLeft, []);
      c.IsResolved()
      && Rebuilt(e, [r], [c], false) == ["<<<<<<< LEFT\n", "=======\n", "b\n", ">>>>>>> RIGHT\n"]
      && Rebuilt(e, [r], [c], true) == []
  {
    var e := NewEngine(Manual);
    var r := MergeRegion(MergeRegionType.Conflict, 0, 1, 0, 0, 0, 1, [], ["a\n"], [], ["b\n"]);
    assert [r][..0] == [];
    assert MarkerLine(e.markerLeft) == "<<<<<<< LEFT\n";
    assert MarkerLine(e.markerSep) == "=======\n";
    assert MarkerLine(e.markerRight) == ">>>>>>> RIGHT\n";
  }

  /**
   * As written, `merge` under an automatic strategy records the resolution but
   * not the chosen lines, so rebuilding that result (as `apply_resolution` does
   * for every other conflict) brings the conflict back as markers.
   */
  lemma AutoResolutionLostOnRebuild()
    ensures var e := NewEngine(FavorLeft);
      var r := MergeRegion(MergeRegionType.Conflict, 0, 1, 0, 1, 0, 1, [], ["a\n"], ["l\n"], ["b\n"]);
      var c := ConflictFor(e, r, 0, false);
      c.IsResolved() && c.resolvedLines == []
      && MergedOf(e, [r]) == ["l\n"]
      && Rebuilt(e, [r], [c], false) == ["<<<<<<< LEFT\n", "l\n", "=======\n", "b\n", ">>>>>>> RIGHT\n"]
  {
    var e := NewEngine(FavorLeft);
    var r := MergeRegion(MergeRegionType.Conflict, 0, 1, 0, 1, 0, 1, [], ["a\n"], ["l\n"], ["b\n"]);
    assert [r][..0] == [];
    assert MarkerLine(e.markerLeft) == "<<<<<<< LEFT\n";
    assert MarkerLine(e.markerSep) == "=======\n";
    assert MarkerLine(e.markerRight) == ">>>>>>> RIGHT\n";
  }

  /**
   * With both corrections (the resolved lines recorded by `merge`, and empty
   * resolved lines written as such), rebuilding a result made under an
   * automatic strategy reproduces its merged text exactly.
   */
  lemma {:induction false} RebuildAgreesWithMerge(e: Engine, rs: seq<MergeRegion>, cs: seq<MergeConflict>)
    requires e.strategy != Manual
    requires |ConflictsOf(e, rs, true)| <= |cs|
    requires forall k :: 0 <= k < |ConflictsOf(e, rs, true)| ==> cs[k] == ConflictsOf(e, rs, true)[k]
    ensures Rebuilt(e, rs, cs, true) == MergedOf(e, rs)
    decreases |rs|
  {
    if rs != [] {
      var init := rs[..|rs| - 1];
      var r := rs[|rs| - 1];
      ConflictsOfShape(e, init, true);
      ConflictsOfShape(e, init, false);
      var ci := ConflictsOf(e, init, true);
      assert forall k :: 0 <= k < |ci| ==> ConflictsOf(e, rs, true)[k] == ci[k];
      RebuildAgreesWithMerge(e, init, cs);
      if r.IsConflict() {
        var c := ConflictFor(e, r, |ci|, true);
        assert ConflictsOf(e, rs, true)[|ci|] == c;
        assert cs[|ci|] == c;
      }
    }
  }

  /** The agreement for a corrected merge result itself: rebuilding it changes nothing. */
  lemma RebuildOfRecordedMergeResult(e: Engine, rs: seq<MergeRegion>)
    requires e.strategy != Manual
    ensures Rebuilt(e, rs, ConflictsOf(e, rs, true), true) == MergedOf(e, rs)
  {
    RebuildAgreesWithMerge(e, rs, ConflictsOf(e, rs, true));
  }
}
