/**
 * The shared records of the comparison application: text-diff lines and hunks,
 * binary differences, folder-comparison results, merge regions and conflicts,
 * synchronisation plans and the file filter. Floating-point members
 * (similarity ratios, percentages, durations) are not modelled.
 */
module Models {
  import opened Wrappers
  import opened TextUtil

  // ---------------------------------------------------------------- enumerations

  datatype DiffLineType = Unchanged | Added | Removed | Modified | Context | Empty
  datatype FileStatus = Identical | Modified | LeftOnly | RightOnly | TypeMismatch | Error
  datatype FileType = File | Directory | Symlink | Unknown
  datatype BinaryDiffType = Identical | Added | Removed | Modified
  datatype MergeRegionType = Unchanged | LeftChanged | RightChanged | BothChangedSame | Conflict
  datatype ConflictResolution =
    Unresolved | UseLeft | UseRight | UseBase | UseBothLeftFirst | UseBothRightFirst | Custom
  datatype ThreeWayLineOrigin = Base | Left | Right | Both | Conflict | Resolved
  datatype CompareMethod = Content | Size | Hash | Timestamp | Quick
  datatype SyncDirection = LeftToRight | RightToLeft | Bidirectional
  datatype SyncAction = CopyToRight | CopyToLeft | DeleteLeft | DeleteRight | Skip | Conflict

  /** A byte value, as Python's `bytes` elements are. */
  type Byte = b: int | 0 <= b < 256

  // ---------------------------------------------------------------- text diff

  /** A highlighted character range `[start, end)` inside one line. */
  datatype IntralineDiff = IntralineDiff(start: int, end: int, diffType: string)
  {
    function Length(): int { end - start }
  }

  datatype DiffLine = DiffLine(
    lineType: DiffLineType,
    content: string,
    leftLineNum: Option<int>,
    rightLineNum: Option<int>,
    intraline: Option<seq<IntralineDiff>>)
  {
    /** The content without its trailing `\r`/`\n` characters. */
    function DisplayContent(): (r: string)
      ensures |r| <= |content| && r == content[..|r|]
      ensures r == [] || r[|r| - 1] !in LineEndChars
      ensures forall i :: |r| <= i < |content| ==> content[i] in LineEndChars
    {
      RStripChars(content, LineEndChars)
    }

    predicate HasIntralineDiff()
    {
      intraline.Some? && |intraline.value| > 0
    }

    /** `left_line_num or right_line_num`: a left number of 0 is falsy in Python. */
    function LineNumber(): (r: Option<int>)
      ensures leftLineNum.Some? && leftLineNum.value != 0 ==> r == leftLineNum
      ensures (leftLineNum.None? || leftLineNum.value == 0) ==> r == rightLineNum
    {
      if leftLineNum.Some? && leftLineNum.value != 0 then leftLineNum else rightLineNum
    }

    function Prefix(): string
    {
      match lineType
      case Added => "+"
      case Removed => "-"
      case Modified => "!"
      case _ => " "
    }
  }

  datatype LinePair = LinePair(left: Option<DiffLine>, right: Option<DiffLine>, pairType: DiffLineType)
  {
    predicate IsDifferent() { pairType != DiffLineType.Unchanged }

    function LeftContent(): string
    {
      if left.Some? then left.value.DisplayContent() else ""
    }

    function RightContent(): string
    {
      if right.Some? then right.value.DisplayContent() else ""
    }
  }

  /** True for the line types that a hunk counts as changes. */
  predicate IsChangeType(t: DiffLineType)
  {
    t != DiffLineType.Unchanged && t != DiffLineType.Context
  }

  /** The number of change lines in `lines` (`sum(1 for ...)`). */
  function CountChanges(lines: seq<DiffLine>): nat
  {
    if lines == [] then 0
    else (if IsChangeType(lines[0].lineType) then 1 else 0) + CountChanges(lines[1..])
  }

  /** The change lines of `lines`, in order (`iter_changes`). */
  function ChangeLines(lines: seq<DiffLine>): (r: seq<DiffLine>)
    ensures forall k :: 0 <= k < |r| ==> IsChangeType(r[k].lineType)
    ensures forall x :: x in r ==> x in lines
  {
    if lines == [] then []
    else (if IsChangeType(lines[0].lineType) then [lines[0]] else []) + ChangeLines(lines[1..])
  }

  datatype DiffHunk = DiffHunk(
    leftStart: int, leftCount: int, rightStart: int, rightCount: int,
    lines: seq<DiffLine>, sectionHeader: string)
  {
    /** The unified-diff header `@@ -ls,lc +rs,rc @@`, followed by the section name if any. */
    function Header(): string
    {
      var base := "@@ -" + IntToString(leftStart) + "," + IntToString(leftCount)
        + " +" + IntToString(rightStart) + "," + IntToString(rightCount) + " @@";
      if sectionHeader != "" then base + " " + sectionHeader else base
    }

    function ChangeCount(): nat { CountChanges(lines) }

    function IterChanges(): seq<DiffLine> { ChangeLines(lines) }
  }

  /** `change_count` is the number of lines `iter_changes` yields, and each of them is a change. */
  lemma {:induction false} ChangeCountMatchesIterChanges(lines: seq<DiffLine>)
    ensures CountChanges(lines) == |ChangeLines(lines)|
    ensures CountChanges(lines) <= |lines|
  {
    if lines != [] {
      ChangeCountMatchesIterChanges(lines[1..]);
    }
  }

  datatype DiffStatistics = DiffStatistics(
    totalLinesLeft: int, totalLinesRight: int,
    addedLines: int, removedLines: int, modifiedLines: int, unchangedLines: int)
  {
    function TotalChanges(): int { addedLines + removedLines + modifiedLines }
  }

  datatype DiffResult = DiffResult(
    leftPath: string, rightPath: string,
    lines: seq<DiffLine>, hunks: seq<DiffHunk>, linePairs: seq<LinePair>,
    isIdentical: bool, isBinary: bool,
    statistics: Option<DiffStatistics>, error: Option<string>)
  {
    predicate HasDifferences() { !isIdentical }
    function HunkCount(): nat { |hunks| }
  }

  // ---------------------------------------------------------------- binary diff

  datatype ByteDifference = ByteDifference(offset: int, leftByte: Option<Byte>, rightByte: Option<Byte>)
  {
    predicate IsAddition() { leftByte.None? && rightByte.Some? }
    predicate IsDeletion() { leftByte.Some? && rightByte.None? }
    predicate IsModification() { leftByte.Some? && rightByte.Some? }
  }

  datatype BinaryDiffChunk = BinaryDiffChunk(
    offset: int, leftBytes: seq<Byte>, rightBytes: seq<Byte>,
    diffType: BinaryDiffType, diffOffsets: seq<int>)
  {
    function Length(): (n: nat)
      ensures n >= |leftBytes| && n >= |rightBytes|
      ensures n == |leftBytes| || n == |rightBytes|
    {
      if |leftBytes| >= |rightBytes| then |leftBytes| else |rightBytes|
    }

    predicate HasDifferenceAt(relativeOffset: int) { relativeOffset in diffOffsets }
  }

  datatype BinaryDiffResult = BinaryDiffResult(
    leftPath: string, rightPath: string,
    leftSize: int, rightSize: int,
    isIdentical: bool,
    differences: seq<ByteDifference>,
    chunks: seq<BinaryDiffChunk>,
    totalDifferences: int,
    truncated: bool,
    firstDiffOffset: Option<int>,
    error: Option<string>)
  {
    function SizeDifference(): int { rightSize - leftSize }
    predicate SizeMatch() { leftSize == rightSize }
  }

  // ---------------------------------------------------------------- folder comparison

  datatype FileMetadata = FileMetadata(
    path: string,
    name: string,
    fileType: FileType,
    size: int,
    modifiedTime: Option<int>,
    isHidden: bool,
    error: Option<string>)
  {
    predicate IsFile() { fileType == File }
    predicate IsDirectory() { fileType == Directory }
    predicate IsSymlink() { fileType == Symlink }

    /** `path.suffix.lower().lstrip('.')` for a file, "" otherwise. */
    function Extension(): string
    {
      if IsFile() then LStripDots(Lower(Suffix(PathName(path)))) else ""
    }
  }

  /** `PurePath.suffix` of a final component `name`: from its last dot, unless that dot is first or last. */
  function Suffix(name: string): (r: string)
    ensures r == [] || (r[0] == '.' && '.' !in r[1..])
  {
    if '.' !in name then ""
    else
      var i := LastIndex(name, '.');
      if 0 < i < |name| - 1 then name[i..] else ""
  }

  function LStripDots(s: string): (r: string)
  {
    if |s| > 0 && s[0] == '.' then LStripDots(s[1..]) else s
  }

  /** A file named `stem.ext` has extension `ext` lower-cased, when the stem and `ext` are dot-free and non-empty. */
  lemma ExtensionOfName(m: FileMetadata, dir: string, stem: string, ext: string)
    requires m.IsFile()
    requires stem != "" && ext != ""
    requires '.' !in stem && '.' !in ext && '/' !in stem && '/' !in ext
    requires m.path == dir + "/" + stem + "." + ext
    ensures m.Extension() == Lower(ext)
  {
    var name := stem + "." + ext;
    assert m.path == dir + "/" + name;
    assert name != "." by { assert |name| >= 3; }
    PathNameOfJoin(dir, name);
    SuffixOfStemExt(stem, ext);
    LowerDotExt(ext);
  }

  lemma SuffixOfStemExt(stem: string, ext: string)
    requires stem != "" && ext != "" && '.' !in stem && '.' !in ext
    ensures Suffix(stem + "." + ext) == "." + ext
  {
    var name := stem + "." + ext;
    var i := |stem|;
    assert name[i] == '.';
    assert name[i..] == "." + ext;
    var j := LastIndex(name, '.');
  }

  lemma LowerDotExt(ext: string)
    requires '.' !in ext && ext != ""
    ensures LStripDots(Lower("." + ext)) == Lower(ext)
  {
    var l := Lower("." + ext);
    assert l[1..] == Lower(ext);
    assert l[1] == LowerChar(ext[0]);
    assert ext[0] != '.' by { assert ext[0] in ext; }
  }

  lemma {:induction false} PathNameOfJoin(dir: string, name: string)
    requires name != "" && name != "." && '/' !in name
    ensures PathName(dir + "/" + name) == name
  {
    var p := dir + "/" + name;
    var pieces := SplitOn(p, '/');
    SplitOnLast(dir, name);
    KeepNamedLast(pieces);
  }

  lemma SplitOnLast(dir: string, name: string)
    requires '/' !in name
    ensures var r := SplitOn(dir + "/" + name, '/'); r[|r| - 1] == name
  {
    var x := dir + "/" + name;
    assert x[|dir|] == '/';
    LastIndexAt(x, '/', |dir|);
    assert x[|dir| + 1..] == name;
  }

  lemma {:induction false} KeepNamedLast(pieces: seq<string>)
    requires |pieces| > 0
    requires forall k :: 0 <= k < |pieces| ==> '/' !in pieces[k]
    requires pieces[|pieces| - 1] != "" && pieces[|pieces| - 1] != "."
    ensures var r := KeepNamed(pieces); |r| > 0 && r[|r| - 1] == pieces[|pieces| - 1]
  {
    if |pieces| > 1 {
      KeepNamedLast(pieces[1..]);
    }
  }

  datatype FileCompareResult = FileCompareResult(
    relativePath: string,
    leftMetadata: Option<FileMetadata>,
    rightMetadata: Option<FileMetadata>,
    status: FileStatus,
    compareMethod: CompareMethod,
    error: Option<string>)
  {
    function Name(): string { PathName(relativePath) }
    predicate ExistsLeft() { leftMetadata.Some? }
    predicate ExistsRight() { rightMetadata.Some? }
    predicate ExistsBoth() { ExistsLeft() && ExistsRight() }
    predicate IsIdentical() { status == FileStatus.Identical }

    /** Decided by the left metadata when present, else by the right one. */
    predicate IsDirectory()
    {
      if leftMetadata.Some? then leftMetadata.value.IsDirectory()
      else if rightMetadata.Some? then rightMetadata.value.IsDirectory()
      else false
    }

    function SizeLeft(): int { if leftMetadata.Some? then leftMetadata.value.size else 0 }
    function SizeRight(): int { if rightMetadata.Some? then rightMetadata.value.size else 0 }
  }

  /** A node of the folder-comparison tree (the parent link and UI `expanded` flag are not modelled). */
  datatype FolderCompareNode = FolderCompareNode(result: FileCompareResult, children: seq<FolderCompareNode>)
  {
    predicate HasDifferences()
      decreases this
    {
      result.status != FileStatus.Identical || HasDifferentChild(children)
    }

    function IterAll(): seq<FolderCompareNode>
      decreases this
    {
      [this] + IterAllOf(children)
    }

    function IterDifferent(): seq<FolderCompareNode>
    {
      OnlyDifferent(IterAll())
    }
  }

  predicate HasDifferentChild(ns: seq<FolderCompareNode>)
    decreases ns
  {
    ns != [] && (ns[0].HasDifferences() || HasDifferentChild(ns[1..]))
  }

  /** The preorder walk of a forest: each tree's `iter_all`, in order. */
  function IterAllOf(ns: seq<FolderCompareNode>): seq<FolderCompareNode>
    decreases ns
  {
    if ns == [] then [] else ns[0].IterAll() + IterAllOf(ns[1..])
  }

  function OnlyDifferent(ns: seq<FolderCompareNode>): (r: seq<FolderCompareNode>)
    ensures forall k :: 0 <= k < |r| ==> r[k].result.status != FileStatus.Identical
  {
    if ns == [] then []
    else (if ns[0].result.status != FileStatus.Identical then [ns[0]] else []) + OnlyDifferent(ns[1..])
  }

  predicate SomeDifferent(ns: seq<FolderCompareNode>)
  {
    exists k :: 0 <= k < |ns| && ns[k].result.status != FileStatus.Identical
  }

  lemma SomeDifferentAppend(a: seq<FolderCompareNode>, b: seq<FolderCompareNode>)
    ensures SomeDifferent(a + b) <==> SomeDifferent(a) || SomeDifferent(b)
  {
    if SomeDifferent(a + b) {
      var k :| 0 <= k < |a + b| && (a + b)[k].result.status != FileStatus.Identical;
      if k >= |a| { assert b[k - |a|] == (a + b)[k]; }
    }
    if SomeDifferent(b) {
      var k :| 0 <= k < |b| && b[k].result.status != FileStatus.Identical;
      assert (a + b)[|a| + k] == b[k];
    }
    if SomeDifferent(a) {
      var k :| 0 <= k < |a| && a[k].result.status != FileStatus.Identical;
      assert (a + b)[k] == a[k];
    }
  }

  /**
   * `has_differences` holds exactly when some node of the preorder walk is not
   * IDENTICAL, which is when `iter_different` yields something; the walk starts
   * with the node itself.
   */
  lemma {:induction false} HasDifferencesIffIterDifferent(n: FolderCompareNode)
    ensures n.IterAll()[0] == n
    ensures n.HasDifferences() <==> SomeDifferent(n.IterAll())
    ensures n.HasDifferences() <==> |n.IterDifferent()| > 0
    decreases n, 1
  {
    ForestHasDifferences(n.children);
    SomeDifferentAppend([n], IterAllOf(n.children));
    assert SomeDifferent([n]) <==> n.result.status != FileStatus.Identical by {
      if n.result.status != FileStatus.Identical { assert [n][0] == n; }
    }
    OnlyDifferentNonEmpty(n.IterAll());
  }

  lemma {:induction false} ForestHasDifferences(ns: seq<FolderCompareNode>)
    ensures HasDifferentChild(ns) <==> SomeDifferent(IterAllOf(ns))
    decreases ns, 0
  {
    if ns != [] {
      HasDifferencesIffIterDifferent(ns[0]);
      ForestHasDifferences(ns[1..]);
      SomeDifferentAppend(ns[0].IterAll(), IterAllOf(ns[1..]));
    }
  }

  /** A tree's walk includes every tree of the forest, in full. */
  lemma {:induction false} IterAllOfMember(ns: seq<FolderCompareNode>, i: int)
    requires 0 <= i < |ns|
    ensures forall x :: x in ns[i].IterAll() ==> x in IterAllOf(ns)
    decreases ns
  {
    if i > 0 {
      IterAllOfMember(ns[1..], i - 1);
    }
  }

  /** The walk of a node met in the walk of `z` lies inside the walk of `z`. */
  lemma {:induction false} IterAllTrans(z: FolderCompareNode, y: FolderCompareNode)
    requires y in z.IterAll()
    ensures forall x :: x in y.IterAll() ==> x in z.IterAll()
    decreases z, 1
  {
    if y != z {
      assert y in IterAllOf(z.children);
      ForestTrans(z.children, y);
    }
  }

  lemma {:induction false} ForestTrans(ns: seq<FolderCompareNode>, y: FolderCompareNode)
    requires y in IterAllOf(ns)
    ensures forall x :: x in y.IterAll() ==> x in IterAllOf(ns)
    decreases ns, 0
  {
    if y in ns[0].IterAll() {
      IterAllTrans(ns[0], y);
    } else {
      ForestTrans(ns[1..], y);
    }
  }

  lemma {:induction false} OnlyDifferentNonEmpty(ns: seq<FolderCompareNode>)
    ensures |OnlyDifferent(ns)| > 0 <==> SomeDifferent(ns)
  {
    if ns != [] {
      OnlyDifferentNonEmpty(ns[1..]);
      if SomeDifferent(ns) && ns[0].result.status == FileStatus.Identical {
        var k :| 0 <= k < |ns| && ns[k].result.status != FileStatus.Identical;
        assert ns[1..][k - 1] == ns[k];
      }
      if SomeDifferent(ns[1..]) {
        var k :| 0 <= k < |ns[1..]| && ns[1..][k].result.status != FileStatus.Identical;
        assert ns[k + 1] == ns[1..][k];
      }
    }
  }

  datatype FolderCompareResult = FolderCompareResult(
    leftPath: string, rightPath: string,
    root: FolderCompareNode,
    totalFiles: nat, totalDirectories: nat,
    identicalCount: nat, modifiedCount: nat, leftOnlyCount: nat, rightOnlyCount: nat,
    errorCount: nat,
    error: Option<string>)
  {
    function TotalDifferences(): nat { modifiedCount + leftOnlyCount + rightOnlyCount }

    predicate IsIdentical() { TotalDifferences() == 0 && errorCount == 0 }

    function IterByStatus(status: FileStatus): seq<FileCompareResult>
    {
      WithStatus(root.IterAll(), status)
    }
  }

  function WithStatus(ns: seq<FolderCompareNode>, status: FileStatus): (r: seq<FileCompareResult>)
    ensures forall k :: 0 <= k < |r| ==> r[k].status == status
  {
    if ns == [] then []
    else (if ns[0].result.status == status then [ns[0].result] else []) + WithStatus(ns[1..], status)
  }

  // ---------------------------------------------------------------- merge

  datatype MergeRegion = MergeRegion(
    regionType: MergeRegionType,
    baseStart: int, baseEnd: int,
    leftStart: int, leftEnd: int,
    rightStart: int, rightEnd: int,
    lines: seq<string>,
    baseLines: seq<string>, leftLines: seq<string>, rightLines: seq<string>)
  {
    predicate IsConflict() { regionType == MergeRegionType.Conflict }
    function LineCount(): nat { |lines| }
  }

  datatype MergeConflict = MergeConflict(
    conflictId: int,
    baseStart: int, baseEnd: int,
    leftStart: int, leftEnd: int,
    rightStart: int, rightEnd: int,
    baseLines: seq<string>, leftLines: seq<string>, rightLines: seq<string>,
    resolution: Option<ConflictResolution>,
    resolvedLines: seq<string>,
    autoResolved: bool)
  {
    /** Resolved means a resolution is recorded and it is not UNRESOLVED. */
    predicate IsResolved()
    {
      resolution.Some? && resolution.value != Unresolved
    }

    /** The lines a resolution would produce; UNRESOLVED and CUSTOM preview as nothing. */
    function GetPreview(res: ConflictResolution): seq<string>
    {
      match res
      case UseLeft => leftLines
      case UseRight => rightLines
      case UseBase => baseLines
      case UseBothLeftFirst => leftLines + rightLines
      case UseBothRightFirst => rightLines + leftLines
      case _ => []
    }
  }

  datatype ThreeWayLine = ThreeWayLine(content: string, origin: ThreeWayLineOrigin, conflictId: Option<int>)
  {
    predicate IsFromConflict() { conflictId.Some? }
  }

  datatype MergeResult = MergeResult(
    mergedLines: seq<string>,
    conflicts: seq<MergeConflict>,
    regions: seq<MergeRegion>,
    threeWayLines: seq<ThreeWayLine>,
    hasConflicts: bool,
    autoResolvedCount: int)
  {
    function ConflictCount(): nat { |conflicts| }
    function UnresolvedCount(): nat { CountUnresolved(conflicts) }
    function ResolvedCount(): nat { CountResolved(conflicts) }
    predicate IsFullyResolved() { forall k :: 0 <= k < |conflicts| ==> conflicts[k].IsResolved() }

    /** The first conflict carrying `id`, found by a linear search. */
    method GetConflict(id: int) returns (r: Option<MergeConflict>)
      ensures r.Some? ==>
        exists k :: 0 <= k < |conflicts| && conflicts[k] == r.value && r.value.conflictId == id
          && (forall j :: 0 <= j < k ==> conflicts[j].conflictId != id)
      ensures r.None? <==> forall k :: 0 <= k < |conflicts| ==> conflicts[k].conflictId != id
    {
      var i := 0;
      while i < |conflicts|
        invariant 0 <= i <= |conflicts|
        invariant forall j :: 0 <= j < i ==> conflicts[j].conflictId != id
      {
        if conflicts[i].conflictId == id {
          return Some(conflicts[i]);
        }
        i := i + 1;
      }
      return None;
    }
  }

  function CountUnresolved(cs: seq<MergeConflict>): nat
  {
    if cs == [] then 0 else (if cs[0].IsResolved() then 0 else 1) + CountUnresolved(cs[1..])
  }

  function CountResolved(cs: seq<MergeConflict>): nat
  {
    if cs == [] then 0 else (if cs[0].IsResolved() then 1 else 0) + CountResolved(cs[1..])
  }

  /**
   * Every conflict is counted once, as resolved or as unresolved, and the result
   * is fully resolved exactly when nothing is unresolved.
   */
  lemma {:induction false} ResolutionCounts(cs: seq<MergeConflict>)
    ensures CountResolved(cs) + CountUnresolved(cs) == |cs|
    ensures CountUnresolved(cs) == 0 <==> forall k :: 0 <= k < |cs| ==> cs[k].IsResolved()
  {
    if cs != [] {
      ResolutionCounts(cs[1..]);
      assert forall k :: 1 <= k < |cs| ==> cs[k] == cs[1..][k - 1];
    }
  }

  // ---------------------------------------------------------------- synchronisation

  datatype SyncItem = SyncItem(
    relativePath: string,
    action: SyncAction,
    sourcePath: Option<string>,
    destPath: Option<string>,
    sourceMetadata: Option<FileMetadata>,
    destMetadata: Option<FileMetadata>,
    reason: string)
  {
    function Name(): string { PathName(relativePath) }
    predicate IsCopy() { action == CopyToLeft || action == CopyToRight }
    predicate IsDelete() { action == DeleteLeft || action == DeleteRight }
  }

  /** The bytes a copy item contributes to the plan's total. */
  function CopyBytes(item: SyncItem): int
  {
    if item.IsCopy() && item.sourceMetadata.Some? then item.sourceMetadata.value.size else 0
  }

  function SumCopyBytes(items: seq<SyncItem>): int
  {
    if items == [] then 0 else SumCopyBytes(items[..|items| - 1]) + CopyBytes(items[|items| - 1])
  }

  function CountWhere(items: seq<SyncItem>, action: SyncAction): nat
  {
    if items == [] then 0 else (if items[0].action == action then 1 else 0) + CountWhere(items[1..], action)
  }

  datatype SyncPlan = SyncPlan(items: seq<SyncItem>, direction: SyncDirection, leftPath: string, rightPath: string)
  {
    function TotalItems(): nat { |items| }
    function CopyCount(): nat { CountWhere(items, CopyToLeft) + CountWhere(items, CopyToRight) }
    function DeleteCount(): nat { CountWhere(items, DeleteLeft) + CountWhere(items, DeleteRight) }
    function ConflictCount(): nat { CountWhere(items, SyncAction.Conflict) }

    /** `total_bytes`: the sizes of copy sources with metadata, summed in a loop. */
    method TotalBytes() returns (total: int)
      ensures total == SumCopyBytes(items)
    {
      total := 0;
      var i := 0;
      while i < |items|
        invariant 0 <= i <= |items|
        invariant total == SumCopyBytes(items[..i])
      {
        assert items[..i + 1][..i] == items[..i];
        if items[i].IsCopy() && items[i].sourceMetadata.Some? {
          total := total + items[i].sourceMetadata.value.size;
        }
        i := i + 1;
      }
      assert items[..|items|] == items;
    }

    function IterByAction(action: SyncAction): seq<SyncItem>
    {
      WithAction(items, action)
    }
  }

  /** `r` is `s` with some elements left out, the rest in their order. */
  predicate InOrderWithin(r: seq<SyncItem>, s: seq<SyncItem>)
    decreases |s|
  {
    r == [] || (s != [] && if r[0] == s[0] then InOrderWithin(r[1..], s[1..]) else InOrderWithin(r, s[1..]))
  }

  /** The items with the action, in plan order: an in-order selection of as many items as carry it, each carrying it. */
  function WithAction(items: seq<SyncItem>, action: SyncAction): (r: seq<SyncItem>)
    ensures forall k :: 0 <= k < |r| ==> r[k].action == action
    ensures |r| == CountWhere(items, action)
    ensures InOrderWithin(r, items)
  {
    if items == [] then []
    else
      var rest := WithAction(items[1..], action);
      if items[0].action == action then
        assert ([items[0]] + rest)[1..] == rest;
        [items[0]] + rest
      else
        assert rest == [] || rest[0] != items[0];
        rest
  }

  /** The copy, delete and conflict counts count disjoint sets of items, so they never exceed the total. */
  lemma {:induction false} PlanCountsDisjoint(items: seq<SyncItem>)
    ensures CountWhere(items, CopyToLeft) + CountWhere(items, CopyToRight)
      + CountWhere(items, DeleteLeft) + CountWhere(items, DeleteRight)
      + CountWhere(items, SyncAction.Conflict) + CountWhere(items, Skip) == |items|
  {
    if items != [] {
      PlanCountsDisjoint(items[1..]);
    }
  }

  /** A plan whose copy items all carry non-negative sizes has a non-negative total, bounded by the copy sources. */
  lemma {:induction false} TotalBytesNonNegative(items: seq<SyncItem>)
    requires forall k :: 0 <= k < |items| ==> items[k].sourceMetadata.Some? ==> items[k].sourceMetadata.value.size >= 0
    ensures SumCopyBytes(items) >= 0
    ensures (forall k :: 0 <= k < |items| ==> !items[k].IsCopy()) ==> SumCopyBytes(items) == 0
  {
    if items != [] {
      TotalBytesNonNegative(items[..|items| - 1]);
    }
  }

  datatype SyncResult = SyncResult(
    success: bool,
    itemsProcessed: int, itemsCopied: int, itemsDeleted: int,
    itemsSkipped: int, itemsFailed: int, bytesCopied: int,
    errors: seq<(string, string)>)
  {
    predicate HasErrors() { |errors| > 0 }
  }

  // ---------------------------------------------------------------- filter

  datatype FileFilter = FileFilter(
    includePatterns: seq<string>, excludePatterns: seq<string>,
    includeExtensions: seq<string>, excludeExtensions: seq<string>,
    minSize: Option<int>, maxSize: Option<int>,
    includeHidden: bool, followSymlinks: bool)
  {
    /** Hidden, size and extension checks in the source's order; patterns are not consulted. */
    predicate Matches(m: FileMetadata)
    {
      if !includeHidden && m.isHidden then false
      else if minSize.Some? && m.size < minSize.value then false
      else if maxSize.Some? && m.size > maxSize.value then false
      else if |includeExtensions| > 0 && m.Extension() !in includeExtensions then false
      else if |excludeExtensions| > 0 && m.Extension() in excludeExtensions then false
      else true
    }
  }

  const DefaultFilter := FileFilter([], [], [], [], None, None, false, false)

  /**
   * The default filter lets through exactly the files that are not hidden, and
   * excluding one more extension never lets more files through.
   */
  lemma FilterMatchesProperties(f: FileFilter, m: FileMetadata, ext: string)
    ensures DefaultFilter.Matches(m) <==> !m.isHidden
    ensures f.(excludeExtensions := f.excludeExtensions + [ext]).Matches(m) ==> f.Matches(m)
    ensures f.Matches(m) && f.includeExtensions != [] ==> m.Extension() in f.includeExtensions
    ensures f.Matches(m) ==>
      (f.minSize.Some? ==> m.size >= f.minSize.value) && (f.maxSize.Some? ==> m.size <= f.maxSize.value)
  {
    var g := f.(excludeExtensions := f.excludeExtensions + [ext]);
    if g.Matches(m) && f.excludeExtensions != [] {
      assert m.Extension() !in g.excludeExtensions;
      assert forall x :: x in f.excludeExtensions ==> x in g.excludeExtensions;
    }
  }
}
