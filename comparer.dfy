/**
 * Folder comparison (app/core/folder/comparer.py): the union of the two scans'
 * paths, the status of each path, the single-file decision ladder, the tree built
 * from the flat results, its sort, and the statistics. Scanning, reading files and
 * hashing are inputs: the scans are given, and the outcome of comparing two files'
 * contents (by hash or byte by byte) is an oracle.
 */
module FolderComparer {
  import opened Wrappers
  import opened TextUtil
  import opened Models
  import opened Ordering
  import opened FolderCompareTree
  import opened Scanner

  datatype CompareOptions = CompareOptions(
    compareContents: bool,
    useHash: bool,
    quickCompare: bool,
    ignoreCase: bool,
    maxFileSize: int)

  /** The dataclass defaults; max_file_size is 100 MB. */
  const DefaultOptions := CompareOptions(true, true, true, false, 100 * 1024 * 1024)

  // ---------------------------------------------------------------- paths

  predicate WfScan(s: ScanResult)
  {
    forall p :: p in s.AllPaths() ==> WfPath(p)
  }

  /** One row of `comparison_paths`: the path reported, and the spelling looked up on each side. */
  datatype PathEntry = PathEntry(rel: string, left: Option<string>, right: Option<string>)

  function Rels(ps: seq<PathEntry>): (r: seq<string>)
    ensures |r| == |ps| && forall i :: 0 <= i < |ps| ==> r[i] == ps[i].rel
  {
    seq(|ps|, i requires 0 <= i < |ps| => ps[i].rel)
  }

  function LowerRels(ps: seq<PathEntry>): (r: seq<string>)
    ensures |r| == |ps| && forall i :: 0 <= i < |ps| ==> r[i] == Lower(ps[i].rel)
  {
    seq(|ps|, i requires 0 <= i < |ps| => Lower(ps[i].rel))
  }

  /** Case-sensitive matching: the sorted union, each path looked up under its own spelling. */
  ghost predicate ExactPaths(l: ScanResult, r: ScanResult, ps: seq<PathEntry>)
  {
    StrictlySorted(Rels(ps)) &&
    (forall x :: x in Rels(ps) <==> x in l.AllPaths() + r.AllPaths()) &&
    (forall i :: 0 <= i < |ps| ==> ps[i].left == Some(ps[i].rel) && ps[i].right == Some(ps[i].rel))
  }

  /**
   * Case-insensitive matching: one row per lower-cased path, in sorted order of
   * the lower-cased keys; each side's spelling lowers to the key, and the row is
   * reported under the left spelling when the left side has one.
   */
  ghost predicate FoldedPaths(l: ScanResult, r: ScanResult, ps: seq<PathEntry>)
  {
    StrictlySorted(LowerRels(ps)) &&
    (forall p :: p in l.AllPaths() ==> Lower(p) in LowerRels(ps)) &&
    (forall p :: p in r.AllPaths() ==> Lower(p) in LowerRels(ps)) &&
    (forall i :: 0 <= i < |ps| ==> FoldedRow(l, r, ps[i]))
  }

  predicate FoldedRow(l: ScanResult, r: ScanResult, e: PathEntry)
  {
    (e.left.Some? || e.right.Some?) &&
    (e.left.Some? ==> e.left.value in l.AllPaths() && Lower(e.left.value) == Lower(e.rel) && e.rel == e.left.value) &&
    (e.right.Some? ==> e.right.value in r.AllPaths() && Lower(e.right.value) == Lower(e.rel)) &&
    (e.left.None? ==> e.rel == e.right.value && (forall p :: p in l.AllPaths() ==> Lower(p) != Lower(e.rel))) &&
    (e.right.None? ==> forall p :: p in r.AllPaths() ==> Lower(p) != Lower(e.rel))
  }

  ghost predicate PathsFor(o: CompareOptions, l: ScanResult, r: ScanResult, ps: seq<PathEntry>)
  {
    if o.ignoreCase then FoldedPaths(l, r, ps) else ExactPaths(l, r, ps)
  }

  /** `{p.lower(): p for p in paths}`: which spelling wins a clash depends on set order. */
  method LowerMap(paths: set<string>) returns (m: map<string, string>)
    ensures SpellingMap(paths, m)
  {
    m := map[];
    var rest := paths;
    while rest != {}
      invariant rest <= paths
      invariant forall p :: p in paths && p !in rest ==> Lower(p) in m
      invariant forall k :: k in m ==> m[k] in paths && Lower(m[k]) == k
      decreases |rest|
    {
      var p :| p in rest;
      m := m[Lower(p) := p];
      rest := rest - {p};
    }
  }

  /** The paths `_compare_scans` walks, in the order it walks them. */
  method ComparisonPaths(o: CompareOptions, l: ScanResult, r: ScanResult) returns (ps: seq<PathEntry>)
    ensures PathsFor(o, l, r, ps)
  {
    if o.ignoreCase {
      ps := FoldedComparisonPaths(l, r);
    } else {
      ps := ExactComparisonPaths(l, r);
    }
  }

  method ExactComparisonPaths(l: ScanResult, r: ScanResult) returns (ps: seq<PathEntry>)
    ensures ExactPaths(l, r, ps)
  {
    var all := SortedSet(l.AllPaths() + r.AllPaths());
    ps := seq(|all|, i requires 0 <= i < |all| => PathEntry(all[i], Some(all[i]), Some(all[i])));
    assert Rels(ps) == all;
  }

  /** The spelling each side has for a lower-cased key. */
  predicate SpellingMap(paths: set<string>, m: map<string, string>)
  {
    (forall p :: p in paths ==> Lower(p) in m) &&
    (forall k :: k in m ==> m[k] in paths && Lower(m[k]) == k)
  }

  /** The row for one lower-cased key: the left spelling wins when there is one. */
  function FoldedRowFor(leftMap: map<string, string>, rightMap: map<string, string>, lower: string): PathEntry
    requires lower in leftMap || lower in rightMap
  {
    var lOrig := if lower in leftMap then Some(leftMap[lower]) else None;
    var rOrig := if lower in rightMap then Some(rightMap[lower]) else None;
    PathEntry(if lOrig.Some? then lOrig.value else rOrig.value, lOrig, rOrig)
  }

  lemma FoldedRowForOk(l: ScanResult, r: ScanResult, leftMap: map<string, string>, rightMap: map<string, string>, lower: string)
    requires SpellingMap(l.AllPaths(), leftMap) && SpellingMap(r.AllPaths(), rightMap)
    requires lower in leftMap || lower in rightMap
    ensures FoldedRow(l, r, FoldedRowFor(leftMap, rightMap, lower))
    ensures Lower(FoldedRowFor(leftMap, rightMap, lower).rel) == lower
  {
  }

  method FoldedComparisonPaths(l: ScanResult, r: ScanResult) returns (ps: seq<PathEntry>)
    ensures FoldedPaths(l, r, ps)
  {
    var leftMap := LowerMap(l.AllPaths());
    var rightMap := LowerMap(r.AllPaths());
    var allLower := SortedSet(leftMap.Keys + rightMap.Keys);
    ps := [];
    for i := 0 to |allLower|
      invariant |ps| == i
      invariant RowsUpTo(l, r, ps, allLower)
    {
      var lower := allLower[i];
      assert lower in leftMap.Keys + rightMap.Keys;
      FoldedRowForOk(l, r, leftMap, rightMap, lower);
      RowsSnoc(l, r, ps, allLower, FoldedRowFor(leftMap, rightMap, lower));
      ps := ps + [FoldedRowFor(leftMap, rightMap, lower)];
    }
    FoldedFinish(l, r, leftMap, rightMap, allLower, ps);
  }

  lemma FoldedFinish(l: ScanResult, r: ScanResult, leftMap: map<string, string>, rightMap: map<string, string>,
                     allLower: seq<string>, ps: seq<PathEntry>)
    requires SpellingMap(l.AllPaths(), leftMap) && SpellingMap(r.AllPaths(), rightMap)
    requires StrictlySorted(allLower) && forall y :: y in allLower <==> y in leftMap.Keys + rightMap.Keys
    requires |ps| == |allLower| && RowsUpTo(l, r, ps, allLower)
    ensures FoldedPaths(l, r, ps)
  {
    assert LowerRels(ps) == allLower;
  }

  /** The rows built so far: one per key, in key order. */
  predicate RowsUpTo(l: ScanResult, r: ScanResult, ps: seq<PathEntry>, keys: seq<string>)
  {
    |ps| <= |keys| && forall j :: 0 <= j < |ps| ==> Lower(ps[j].rel) == keys[j] && FoldedRow(l, r, ps[j])
  }

  lemma RowsSnoc(l: ScanResult, r: ScanResult, ps: seq<PathEntry>, keys: seq<string>, x: PathEntry)
    requires RowsUpTo(l, r, ps, keys) && |ps| < |keys|
    requires Lower(x.rel) == keys[|ps|] && FoldedRow(l, r, x)
    ensures RowsUpTo(l, r, ps + [x], keys)
  {
  }

  /** Either way no path is reported twice. */
  lemma PathsDistinct(o: CompareOptions, l: ScanResult, r: ScanResult, ps: seq<PathEntry>)
    requires PathsFor(o, l, r, ps)
    ensures forall i, j :: 0 <= i < j < |ps| ==> ps[i].rel != ps[j].rel
  {
    forall i, j | 0 <= i < j < |ps| ensures ps[i].rel != ps[j].rel {
      if o.ignoreCase {
        StrLessIrreflexive(Lower(ps[i].rel));
        assert StrLess(LowerRels(ps)[i], LowerRels(ps)[j]);
      } else {
        StrLessIrreflexive(ps[i].rel);
        assert StrLess(Rels(ps)[i], Rels(ps)[j]);
      }
    }
  }

  // ---------------------------------------------------------------- status

  /**
   * The quick status of a path: RIGHT_ONLY, LEFT_ONLY, TYPE_MISMATCH, or IDENTICAL
   * for two directories; None for a pair of same-typed non-directories, which
   * alone go on to the content comparison.
   */
  function Classify(lm: Option<FileMetadata>, rm: Option<FileMetadata>): (st: Option<FileStatus>)
    ensures st.None? <==>
      lm.Some? && rm.Some? && lm.value.fileType == rm.value.fileType && !lm.value.IsDirectory()
  {
    if lm.None? then Some(RightOnly)
    else if rm.None? then Some(LeftOnly)
    else if lm.value.fileType != rm.value.fileType then Some(TypeMismatch)
    else if lm.value.IsDirectory() then Some(FileStatus.Identical)
    else None
  }

  /** Each quick status, both ways. */
  lemma ClassifyTable(lm: Option<FileMetadata>, rm: Option<FileMetadata>)
    ensures Classify(lm, rm) == Some(RightOnly) <==> lm.None?
    ensures Classify(lm, rm) == Some(LeftOnly) <==> lm.Some? && rm.None?
    ensures Classify(lm, rm) == Some(TypeMismatch) <==> lm.Some? && rm.Some? && lm.value.fileType != rm.value.fileType
    ensures Classify(lm, rm) == Some(FileStatus.Identical) <==>
      lm.Some? && rm.Some? && lm.value.fileType == rm.value.fileType && lm.value.IsDirectory()
  {
  }

  /** Swapping the sides of a path that exists somewhere swaps LEFT_ONLY and RIGHT_ONLY and keeps every other status. */
  lemma ClassifySymmetric(lm: Option<FileMetadata>, rm: Option<FileMetadata>)
    requires lm.Some? || rm.Some?
    ensures Classify(lm, rm) == Some(LeftOnly) <==> Classify(rm, lm) == Some(RightOnly)
    ensures Classify(lm, rm) in {Some(TypeMismatch), Some(FileStatus.Identical), None} ==> Classify(rm, lm) == Classify(lm, rm)
  {
  }

  /** Whether the ladder gets as far as comparing contents. */
  predicate ReachesContent(o: CompareOptions, lm: FileMetadata, rm: FileMetadata)
  {
    !(o.quickCompare && lm.size != rm.size) &&
    !(o.quickCompare && !o.compareContents && lm.modifiedTime == rm.modifiedTime) &&
    !(lm.size > o.maxFileSize) &&
    o.compareContents
  }

  /**
   * `_compare_single_file`. `sameContent` is what `_compare_by_hash` (with
   * use_hash) or `_compare_by_content` returned, or the error it raised. The
   * similarity score is not modelled.
   */
  function CompareSingleFile(o: CompareOptions, lm: FileMetadata, rm: FileMetadata, rel: string,
                             sameContent: Result<bool>): (r: Result<FileCompareResult>)
    ensures r.Err? <==> ReachesContent(o, lm, rm) && sameContent.Err?
    ensures r.Ok? ==> (r.value.relativePath == rel && r.value.leftMetadata == Some(lm) &&
      r.value.rightMetadata == Some(rm) && r.value.status in {FileStatus.Identical, FileStatus.Modified})
    ensures ReachesContent(o, lm, rm) && sameContent.Ok? ==>
      r.value.status == (if sameContent.value then FileStatus.Identical else FileStatus.Modified) &&
      r.value.compareMethod == (if o.useHash then Hash else Content)
  {
    if o.quickCompare && lm.size != rm.size then
      Ok(FileCompareResult(rel, Some(lm), Some(rm), FileStatus.Modified, Size, None))
    else if o.quickCompare && !o.compareContents && lm.modifiedTime == rm.modifiedTime then
      Ok(FileCompareResult(rel, Some(lm), Some(rm), FileStatus.Identical, Timestamp, None))
    else if lm.size > o.maxFileSize then
      var isSame := lm.size == rm.size && lm.modifiedTime == rm.modifiedTime;
      Ok(FileCompareResult(rel, Some(lm), Some(rm), if isSame then FileStatus.Identical else FileStatus.Modified, Quick, None))
    else if o.compareContents then
      var how := if o.useHash then Hash else Content;
      if sameContent.Err? then Err(sameContent.error)
      else Ok(FileCompareResult(rel, Some(lm), Some(rm),
                                if sameContent.value then FileStatus.Identical else FileStatus.Modified, how, None))
    else
      Ok(FileCompareResult(rel, Some(lm), Some(rm),
                           if lm.size == rm.size then FileStatus.Identical else FileStatus.Modified, Size, None))
  }

  /**
   * The ladder's cheap rungs: with quick_compare a size difference is MODIFIED by
   * SIZE, and equal sizes with compare_contents off and equal times are IDENTICAL
   * by TIMESTAMP; a file above max_file_size is IDENTICAL iff both size and time
   * match; with compare_contents off the fallback is IDENTICAL iff the sizes match.
   */
  lemma LadderRungs(o: CompareOptions, lm: FileMetadata, rm: FileMetadata, rel: string, sameContent: Result<bool>)
    ensures var r := CompareSingleFile(o, lm, rm, rel, sameContent);
      (o.quickCompare && lm.size != rm.size ==> r.Ok? && r.value.status == FileStatus.Modified && r.value.compareMethod == Size) &&
      (o.quickCompare && lm.size == rm.size && !o.compareContents && lm.modifiedTime == rm.modifiedTime ==>
        r.Ok? && r.value.status == FileStatus.Identical && r.value.compareMethod == Timestamp) &&
      (!o.quickCompare && lm.size > o.maxFileSize ==>
        r.Ok? && r.value.compareMethod == Quick &&
        (r.value.status == FileStatus.Identical <==> lm.size == rm.size && lm.modifiedTime == rm.modifiedTime)) &&
      (!o.quickCompare && lm.size <= o.maxFileSize && !o.compareContents ==>
        r.Ok? && r.value.compareMethod == Size && (r.value.status == FileStatus.Identical <==> lm.size == rm.size))
  {
  }

  /**
   * Whatever rung decides, IDENTICAL files have the same size, provided the
   * content check never calls files of different sizes equal.
   */
  lemma IdenticalSameSize(o: CompareOptions, lm: FileMetadata, rm: FileMetadata, rel: string, sameContent: Result<bool>)
    requires sameContent == Ok(true) ==> lm.size == rm.size
    ensures var r := CompareSingleFile(o, lm, rm, rel, sameContent);
      r.Ok? && r.value.status == FileStatus.Identical ==> lm.size == rm.size
  {
  }

  /** A failed content check becomes an ERROR entry without metadata. */
  function FileOutcome(o: CompareOptions, rel: string, lm: FileMetadata, rm: FileMetadata, sameContent: Result<bool>): FileCompareResult
  {
    var r := CompareSingleFile(o, lm, rm, rel, sameContent);
    if r.Ok? then r.value else FileCompareResult(rel, None, None, FileStatus.Error, Content, Some(r.error))
  }

  /** The metadata looked up for one side of a row (`get_metadata(orig) if orig else None`). */
  function SideMetadata(s: ScanResult, orig: Option<string>): Option<FileMetadata>
  {
    if orig.Some? && orig.value != "" then s.GetMetadata(orig.value) else None
  }

  /** The result recorded for one row, whichever phase computes it. */
  function RowResult(o: CompareOptions, l: ScanResult, r: ScanResult, e: PathEntry,
                     content: string -> Result<bool>): FileCompareResult
  {
    var lm := SideMetadata(l, e.left);
    var rm := SideMetadata(r, e.right);
    var st := Classify(lm, rm);
    if st.Some? then FileCompareResult(e.rel, lm, rm, st.value, Content, None)
    else FileOutcome(o, e.rel, lm.value, rm.value, content(e.rel))
  }

  /** A pair of files waiting for the content phase. */
  datatype FileJob = FileJob(rel: string, lm: FileMetadata, rm: FileMetadata)

  /** The first phase: quick statuses of the rows that need no content comparison. */
  function QuickResults(o: CompareOptions, l: ScanResult, r: ScanResult, ps: seq<PathEntry>,
                        content: string -> Result<bool>): map<string, FileCompareResult>
  {
    if ps == [] then map[]
    else
      var e := ps[|ps| - 1];
      var prev := QuickResults(o, l, r, ps[..|ps| - 1], content);
      if Classify(SideMetadata(l, e.left), SideMetadata(r, e.right)).Some? then prev[e.rel := RowResult(o, l, r, e, content)]
      else prev
  }

  /** The file pairs the first phase sets aside, in row order. */
  function FileJobs(l: ScanResult, r: ScanResult, ps: seq<PathEntry>): seq<FileJob>
  {
    if ps == [] then []
    else
      var e := ps[|ps| - 1];
      var lm := SideMetadata(l, e.left);
      var rm := SideMetadata(r, e.right);
      FileJobs(l, r, ps[..|ps| - 1]) + (if Classify(lm, rm).None? then [FileJob(e.rel, lm.value, rm.value)] else [])
  }

  /** The second phase: one outcome per file pair. */
  function JobResults(o: CompareOptions, jobs: seq<FileJob>, content: string -> Result<bool>): map<string, FileCompareResult>
  {
    if jobs == [] then map[]
    else
      var j := jobs[|jobs| - 1];
      JobResults(o, jobs[..|jobs| - 1], content)[j.rel := FileOutcome(o, j.rel, j.lm, j.rm, content(j.rel))]
  }

  /** Every row's result, as if one loop handled them all. */
  function AllResults(o: CompareOptions, l: ScanResult, r: ScanResult, ps: seq<PathEntry>,
                      content: string -> Result<bool>): map<string, FileCompareResult>
  {
    if ps == [] then map[]
    else AllResults(o, l, r, ps[..|ps| - 1], content)[ps[|ps| - 1].rel := RowResult(o, l, r, ps[|ps| - 1], content)]
  }

  /**
   * The loop of `_compare_scans` and the content phase `_compare_files_parallel`,
   * run one pair at a time. Cancellation and progress reports are not modelled.
   */
  method CollectResults(o: CompareOptions, l: ScanResult, r: ScanResult, content: string -> Result<bool>)
    returns (ps: seq<PathEntry>, results: map<string, FileCompareResult>)
    ensures PathsFor(o, l, r, ps)
    ensures results == QuickResults(o, l, r, ps, content) + JobResults(o, FileJobs(l, r, ps), content)
  {
    ps := ComparisonPaths(o, l, r);
    results := map[];
    var fileComparisons: seq<FileJob> := [];
    for i := 0 to |ps|
      invariant results == QuickResults(o, l, r, ps[..i], content)
      invariant fileComparisons == FileJobs(l, r, ps[..i])
    {
      QuickStep(o, l, r, ps, i, content);
      var e := ps[i];
      var leftMeta := SideMetadata(l, e.left);
      var rightMeta := SideMetadata(r, e.right);
      var status := Classify(leftMeta, rightMeta);
      if status.None? {
        fileComparisons := fileComparisons + [FileJob(e.rel, leftMeta.value, rightMeta.value)];
      } else {
        results := results[e.rel := FileCompareResult(e.rel, leftMeta, rightMeta, status.value, Content, None)];
      }
    }
    assert ps[..|ps|] == ps;
    var fileResults := CompareFiles(o, fileComparisons, content);
    results := results + fileResults;
  }

  /** `_compare_files_parallel`, one pair at a time: each pair's outcome under its path. */
  method CompareFiles(o: CompareOptions, fileComparisons: seq<FileJob>, content: string -> Result<bool>)
    returns (fileResults: map<string, FileCompareResult>)
    ensures fileResults == JobResults(o, fileComparisons, content)
  {
    fileResults := map[];
    for j := 0 to |fileComparisons|
      invariant fileResults == JobResults(o, fileComparisons[..j], content)
    {
      assert fileComparisons[..j + 1][..j] == fileComparisons[..j];
      var job := fileComparisons[j];
      fileResults := fileResults[job.rel := FileOutcome(o, job.rel, job.lm, job.rm, content(job.rel))];
    }
    assert fileComparisons[..|fileComparisons|] == fileComparisons;
  }

  /** How row `i` extends the first phase's results and set-aside pairs. */
  lemma QuickStep(o: CompareOptions, l: ScanResult, r: ScanResult, ps: seq<PathEntry>, i: nat,
                  content: string -> Result<bool>)
    requires i < |ps|
    ensures var e := ps[i]; var lm := SideMetadata(l, e.left); var rm := SideMetadata(r, e.right);
      var st := Classify(lm, rm);
      if st.None? then
        QuickResults(o, l, r, ps[..i + 1], content) == QuickResults(o, l, r, ps[..i], content) &&
        FileJobs(l, r, ps[..i + 1]) == FileJobs(l, r, ps[..i]) + [FileJob(e.rel, lm.value, rm.value)]
      else
        QuickResults(o, l, r, ps[..i + 1], content) ==
          QuickResults(o, l, r, ps[..i], content)[e.rel := FileCompareResult(e.rel, lm, rm, st.value, Content, None)] &&
        FileJobs(l, r, ps[..i + 1]) == FileJobs(l, r, ps[..i])
  {
    assert ps[..i + 1][..i] == ps[..i];
  }

  function JobRels(jobs: seq<FileJob>): (r: seq<string>)
    ensures |r| == |jobs| && forall i :: 0 <= i < |jobs| ==> r[i] == jobs[i].rel
  {
    seq(|jobs|, i requires 0 <= i < |jobs| => jobs[i].rel)
  }

  lemma {:induction false} QuickKeys(o: CompareOptions, l: ScanResult, r: ScanResult, ps: seq<PathEntry>,
                                     content: string -> Result<bool>)
    ensures forall k :: k in QuickResults(o, l, r, ps, content) ==> k in Rels(ps)
  {
    if ps != [] {
      var init := ps[..|ps| - 1];
      QuickKeys(o, l, r, init, content);
      assert forall k :: k in Rels(init) ==> k in Rels(ps) by {
        forall k | k in Rels(init) ensures k in Rels(ps) {
          var i :| 0 <= i < |init| && Rels(init)[i] == k;
          assert Rels(ps)[i] == k;
        }
      }
      assert Rels(ps)[|ps| - 1] == ps[|ps| - 1].rel;
    }
  }

  lemma {:induction false} JobKeys(l: ScanResult, r: ScanResult, ps: seq<PathEntry>)
    ensures forall k :: k in JobRels(FileJobs(l, r, ps)) ==> k in Rels(ps)
  {
    if ps != [] {
      var init := ps[..|ps| - 1];
      JobKeys(l, r, init);
      var jobs := FileJobs(l, r, ps);
      var prev := FileJobs(l, r, init);
      forall k | k in JobRels(jobs) ensures k in Rels(ps) {
        var i :| 0 <= i < |jobs| && JobRels(jobs)[i] == k;
        if i < |prev| {
          assert jobs[i] == prev[i];
          assert k in JobRels(prev);
          var m :| 0 <= m < |init| && Rels(init)[m] == k;
          assert Rels(ps)[m] == k;
        } else {
          assert Rels(ps)[|ps| - 1] == k;
        }
      }
    }
  }

  lemma {:induction false} JobsKeys(o: CompareOptions, jobs: seq<FileJob>, content: string -> Result<bool>)
    ensures forall k :: k in JobResults(o, jobs, content) <==> k in JobRels(jobs)
  {
    if jobs != [] {
      var init := jobs[..|jobs| - 1];
      JobsKeys(o, init, content);
      assert forall k :: k in JobRels(jobs) <==> k in JobRels(init) || k == jobs[|jobs| - 1].rel by {
        forall k ensures k in JobRels(jobs) <==> k in JobRels(init) || k == jobs[|jobs| - 1].rel {
          if k in JobRels(jobs) {
            var i :| 0 <= i < |jobs| && JobRels(jobs)[i] == k;
            if i < |init| { assert JobRels(init)[i] == k; }
          }
          if k in JobRels(init) {
            var i :| 0 <= i < |init| && JobRels(init)[i] == k;
            assert JobRels(jobs)[i] == k;
          }
          assert JobRels(jobs)[|jobs| - 1] == jobs[|jobs| - 1].rel;
        }
      }
    }
  }

  /**
   * Because no path is reported twice, the two phases together record exactly one
   * result per row: the one a single loop over the rows would record.
   */
  lemma {:induction false} TwoPhasesAgree(o: CompareOptions, l: ScanResult, r: ScanResult, ps: seq<PathEntry>,
                                          content: string -> Result<bool>)
    requires forall i, j :: 0 <= i < j < |ps| ==> ps[i].rel != ps[j].rel
    ensures QuickResults(o, l, r, ps, content) + JobResults(o, FileJobs(l, r, ps), content) == AllResults(o, l, r, ps, content)
  {
    if ps != [] {
      var init := ps[..|ps| - 1];
      var e := ps[|ps| - 1];
      TwoPhasesAgree(o, l, r, init, content);
      JobKeys(l, r, init);
      JobsKeys(o, FileJobs(l, r, init), content);
      assert e.rel !in Rels(init) by {
        forall i | 0 <= i < |init| ensures Rels(init)[i] != e.rel { assert init[i] == ps[i]; }
      }
      var isFile := Classify(SideMetadata(l, e.left), SideMetadata(r, e.right)).None?;
      PhasesAtRow(o, l, r, ps, content);
      PhaseStep(QuickResults(o, l, r, init, content), JobResults(o, FileJobs(l, r, init), content),
                AllResults(o, l, r, init, content), e.rel, RowResult(o, l, r, e, content), isFile,
                QuickResults(o, l, r, ps, content), JobResults(o, FileJobs(l, r, ps), content),
                AllResults(o, l, r, ps, content));
    }
  }

  /** How the last row extends each phase. */
  lemma PhasesAtRow(o: CompareOptions, l: ScanResult, r: ScanResult, ps: seq<PathEntry>, content: string -> Result<bool>)
    requires ps != []
    ensures var init := ps[..|ps| - 1]; var e := ps[|ps| - 1];
      var v := RowResult(o, l, r, e, content);
      AllResults(o, l, r, ps, content) == AllResults(o, l, r, init, content)[e.rel := v] &&
      if Classify(SideMetadata(l, e.left), SideMetadata(r, e.right)).None? then
        QuickResults(o, l, r, ps, content) == QuickResults(o, l, r, init, content) &&
        JobResults(o, FileJobs(l, r, ps), content) == JobResults(o, FileJobs(l, r, init), content)[e.rel := v]
      else
        QuickResults(o, l, r, ps, content) == QuickResults(o, l, r, init, content)[e.rel := v] &&
        FileJobs(l, r, ps) == FileJobs(l, r, init)
  {
    var init := ps[..|ps| - 1];
    var e := ps[|ps| - 1];
    var lm := SideMetadata(l, e.left);
    var rm := SideMetadata(r, e.right);
    if Classify(lm, rm).None? {
      var jobs := FileJobs(l, r, ps);
      assert jobs == FileJobs(l, r, init) + [FileJob(e.rel, lm.value, rm.value)];
      assert jobs[..|jobs| - 1] == FileJobs(l, r, init);
    }
  }

  lemma PhaseStep(qPrev: map<string, FileCompareResult>, jPrev: map<string, FileCompareResult>,
                  aPrev: map<string, FileCompareResult>, k: string, v: FileCompareResult, isFile: bool,
                  q: map<string, FileCompareResult>, j: map<string, FileCompareResult>, a: map<string, FileCompareResult>)
    requires qPrev + jPrev == aPrev && k !in jPrev && a == aPrev[k := v]
    requires isFile ==> q == qPrev && j == jPrev[k := v]
    requires !isFile ==> q == qPrev[k := v] && j == jPrev
    ensures q + j == a
  {
  }

  /** Each row's path is recorded with that row's result, and nothing else is recorded. */
  lemma {:induction false} AllResultsRows(o: CompareOptions, l: ScanResult, r: ScanResult, ps: seq<PathEntry>,
                                          content: string -> Result<bool>)
    requires forall i, j :: 0 <= i < j < |ps| ==> ps[i].rel != ps[j].rel
    ensures AllResults(o, l, r, ps, content).Keys == set e | e in ps :: e.rel
    ensures forall i :: 0 <= i < |ps| ==> AllResults(o, l, r, ps, content)[ps[i].rel] == RowResult(o, l, r, ps[i], content)
  {
    if ps != [] {
      var init := ps[..|ps| - 1];
      AllResultsRows(o, l, r, init, content);
      forall i | 0 <= i < |ps| - 1
        ensures AllResults(o, l, r, ps, content)[ps[i].rel] == RowResult(o, l, r, ps[i], content)
      {
        assert init[i] == ps[i];
      }
      assert ps == init + [ps[|ps| - 1]];
    }
  }

  /** Every reported path is a well-formed relative path, since it is a spelling one of the scans found. */
  lemma RowsWf(o: CompareOptions, l: ScanResult, r: ScanResult, ps: seq<PathEntry>)
    requires WfScan(l) && WfScan(r) && PathsFor(o, l, r, ps)
    ensures forall e :: e in ps ==> WfPath(e.rel)
  {
    forall e | e in ps ensures WfPath(e.rel) {
      var i :| 0 <= i < |ps| && ps[i] == e;
      if o.ignoreCase {
        assert FoldedRow(l, r, ps[i]);
        assert e.rel in l.AllPaths() || e.rel in r.AllPaths();
      } else {
        assert Rels(ps)[i] == e.rel;
        assert e.rel in l.AllPaths() + r.AllPaths();
      }
    }
  }

  // ---------------------------------------------------------------- the whole comparison

  /**
   * A node's result in the tree of `results`: the root, one of the results, or a
   * directory filled in above a result whose parent had no entry.
   */
  predicate TreeResult(results: map<string, FileCompareResult>, x: FileCompareResult)
  {
    x == RootResult ||
    (exists k :: k in results && x == results[k]) ||
    (x == DirResult(x.relativePath, PathName(x.relativePath)) &&
     exists p :: p in results && ProperAncestor(x.relativePath, p))
  }

  /** Some node of the tree below `root` carries `x`. */
  predicate InTree(root: FolderCompareNode, x: FileCompareResult)
  {
    exists m :: m in root.IterAll() && m.result == x
  }

  /** What the sorted tree read from a table built by `BuildTree` holds. */
  lemma SortedRootFacts(results: map<string, FileCompareResult>, t: NodeTable)
    requires TableOk(t) && t.entries[""] == RootResult
    requires forall k :: k in results ==> k in t.entries && t.entries[k] == results[k]
    requires forall k :: k in t.entries && k != "" && k !in results ==>
      t.entries[k] == DirResult(k, PathName(k)) && exists p :: p in results && ProperAncestor(k, p)
    ensures TableOk(SortTree(t))
    ensures var root := ToNode(SortTree(t), "");
      root.result == RootResult &&
      (forall k :: k in results ==> InTree(root, results[k])) &&
      (forall m :: m in root.IterAll() ==> ChildrenSorted(m) && TreeResult(results, m.result))
  {
    var s := SortTree(t);
    SortedTree(t);
    var root := ToNode(s, "");
    forall k | k in results ensures InTree(root, results[k]) {
      TreeCovers(s, k);
      assert ToNode(s, k) in root.IterAll() && ToNode(s, k).result == results[k];
    }
    TreeNodes(s, "");
    forall m | m in root.IterAll() ensures TreeResult(results, m.result) {
      var k :| k in s.entries && m == ToNode(s, k);
      if k == "" {
      } else if k in results {
      } else {
        assert m.result == DirResult(k, PathName(k));
      }
    }
  }

  /**
   * `_compare_scans` without cancellation: the rows, their results, the sorted
   * tree and the counters. The root's own name is not modelled.
   */
  method CompareScans(o: CompareOptions, leftPath: string, rightPath: string, l: ScanResult, r: ScanResult,
                      content: string -> Result<bool>)
    returns (ps: seq<PathEntry>, res: FolderCompareResult)
    requires WfScan(l) && WfScan(r)
    ensures PathsFor(o, l, r, ps)
    ensures res.leftPath == leftPath && res.rightPath == rightPath && res.error == None
    ensures res.root.result == RootResult
    ensures forall i :: 0 <= i < |ps| ==> InTree(res.root, RowResult(o, l, r, ps[i], content))
    ensures forall m :: m in res.root.IterAll() ==>
      ChildrenSorted(m) && TreeResult(AllResults(o, l, r, ps, content), m.result)
    ensures Stats(res.totalFiles, res.totalDirectories, res.identicalCount, res.modifiedCount,
                  res.leftOnlyCount, res.rightOnlyCount, res.errorCount) ==
      TallyFor(AllResults(o, l, r, ps, content), AllResults(o, l, r, ps, content).Keys)
  {
    var results;
    ps, results := CollectResults(o, l, r, content);
    ResultsOfRows(o, l, r, ps, content, results);
    var t := BuildTree(results);
    SortedRootFacts(results, t);
    RowsInTree(o, l, r, ps, content, results, ToNode(SortTree(t), ""));
    var stats := CalculateStatistics(results);
    res := FolderCompareResult(leftPath, rightPath, ToNode(SortTree(t), ""), stats.totalFiles, stats.totalDirs,
                               stats.identical, stats.modified, stats.leftOnly, stats.rightOnly, stats.errors, None);
  }

  /** The two phases' results are one well-formed entry per row. */
  lemma ResultsOfRows(o: CompareOptions, l: ScanResult, r: ScanResult, ps: seq<PathEntry>,
                      content: string -> Result<bool>, results: map<string, FileCompareResult>)
    requires WfScan(l) && WfScan(r) && PathsFor(o, l, r, ps)
    requires results == QuickResults(o, l, r, ps, content) + JobResults(o, FileJobs(l, r, ps), content)
    ensures results == AllResults(o, l, r, ps, content)
    ensures forall i :: 0 <= i < |ps| ==> ps[i].rel in results && results[ps[i].rel] == RowResult(o, l, r, ps[i], content)
    ensures forall k :: k in results ==> WfPath(k)
  {
    PathsDistinct(o, l, r, ps);
    TwoPhasesAgree(o, l, r, ps, content);
    AllResultsRows(o, l, r, ps, content);
    RowsWf(o, l, r, ps);
  }

  /** Each row's result is a node of a tree holding every result. */
  lemma RowsInTree(o: CompareOptions, l: ScanResult, r: ScanResult, ps: seq<PathEntry>,
                   content: string -> Result<bool>, results: map<string, FileCompareResult>, root: FolderCompareNode)
    requires forall i :: 0 <= i < |ps| ==> ps[i].rel in results && results[ps[i].rel] == RowResult(o, l, r, ps[i], content)
    requires forall k :: k in results ==> InTree(root, results[k])
    ensures forall i :: 0 <= i < |ps| ==> InTree(root, RowResult(o, l, r, ps[i], content))
  {
    forall i | 0 <= i < |ps|
      ensures InTree(root, RowResult(o, l, r, ps[i], content))
    {
      assert ps[i].rel in results;
    }
  }

  // ---------------------------------------------------------------- statistics

  /** The counters `_calculate_statistics` returns. */
  datatype Stats = Stats(totalFiles: nat, totalDirs: nat, identical: nat, modified: nat,
                         leftOnly: nat, rightOnly: nat, errors: nat)

  /** The paths among `done` whose result has status `st`. */
  function StatusKeys(results: map<string, FileCompareResult>, done: set<string>, st: FileStatus): set<string>
  {
    set k | k in done && k in results && results[k].status == st
  }

  /** The paths among `done` whose result is a directory. */
  function DirKeys(results: map<string, FileCompareResult>, done: set<string>): set<string>
  {
    set k | k in done && k in results && results[k].IsDirectory()
  }

  /** The paths among `done` whose result is not a directory. */
  function FileKeys(results: map<string, FileCompareResult>, done: set<string>): set<string>
  {
    set k | k in done && k in results && !results[k].IsDirectory()
  }

  /**
   * The counters for the results at `done`: each status counter counts the
   * results with its status, and the kind counters count files and directories.
   */
  function TallyFor(results: map<string, FileCompareResult>, done: set<string>): Stats
  {
    Stats(|FileKeys(results, done)|, |DirKeys(results, done)|,
          |StatusKeys(results, done, FileStatus.Identical)|, |StatusKeys(results, done, FileStatus.Modified)|,
          |StatusKeys(results, done, LeftOnly)|, |StatusKeys(results, done, RightOnly)|,
          |StatusKeys(results, done, FileStatus.Error)|)
  }

  /** One result counted: one more for its kind, and one more for its status unless that is TYPE_MISMATCH. */
  function CountOne(s: Stats, result: FileCompareResult): Stats
  {
    var st := result.status;
    Stats(s.totalFiles + (if result.IsDirectory() then 0 else 1), s.totalDirs + (if result.IsDirectory() then 1 else 0),
          s.identical + (if st == FileStatus.Identical then 1 else 0), s.modified + (if st == FileStatus.Modified then 1 else 0),
          s.leftOnly + (if st == LeftOnly then 1 else 0), s.rightOnly + (if st == RightOnly then 1 else 0),
          s.errors + (if st == FileStatus.Error then 1 else 0))
  }

  lemma StatusKeysStep(results: map<string, FileCompareResult>, done: set<string>, x: string, st: FileStatus)
    requires x in results && x !in done
    ensures |StatusKeys(results, done + {x}, st)| ==
      |StatusKeys(results, done, st)| + (if results[x].status == st then 1 else 0)
  {
    if results[x].status == st {
      assert StatusKeys(results, done + {x}, st) == StatusKeys(results, done, st) + {x};
    } else {
      assert StatusKeys(results, done + {x}, st) == StatusKeys(results, done, st);
    }
  }

  lemma KindKeysStep(results: map<string, FileCompareResult>, done: set<string>, x: string)
    requires x in results && x !in done
    ensures |DirKeys(results, done + {x})| == |DirKeys(results, done)| + (if results[x].IsDirectory() then 1 else 0)
    ensures |FileKeys(results, done + {x})| == |FileKeys(results, done)| + (if results[x].IsDirectory() then 0 else 1)
  {
    if results[x].IsDirectory() {
      assert DirKeys(results, done + {x}) == DirKeys(results, done) + {x};
      assert FileKeys(results, done + {x}) == FileKeys(results, done);
    } else {
      assert DirKeys(results, done + {x}) == DirKeys(results, done);
      assert FileKeys(results, done + {x}) == FileKeys(results, done) + {x};
    }
  }

  /** Visiting one more result moves the counters by `CountOne`. */
  lemma TallyStep(results: map<string, FileCompareResult>, done: set<string>, x: string)
    requires x in results && x !in done
    ensures TallyFor(results, done + {x}) == CountOne(TallyFor(results, done), results[x])
  {
    StatusKeysStep(results, done, x, FileStatus.Identical);
    StatusKeysStep(results, done, x, FileStatus.Modified);
    StatusKeysStep(results, done, x, LeftOnly);
    StatusKeysStep(results, done, x, RightOnly);
    StatusKeysStep(results, done, x, FileStatus.Error);
    KindKeysStep(results, done, x);
  }

  lemma TallyNone(results: map<string, FileCompareResult>)
    ensures TallyFor(results, {}) == Stats(0, 0, 0, 0, 0, 0, 0)
  {
    forall st ensures StatusKeys(results, {}, st) == {} {
    }
    assert DirKeys(results, {}) == {} && FileKeys(results, {}) == {};
  }

  /** `_calculate_statistics`: one pass over the results. */
  method CalculateStatistics(results: map<string, FileCompareResult>) returns (s: Stats)
    ensures s == TallyFor(results, results.Keys)
  {
    s := Stats(0, 0, 0, 0, 0, 0, 0);
    var rest := results.Keys;
    TallyNone(results);
    assert results.Keys - rest == {};
    while rest != {}
      invariant rest <= results.Keys
      invariant s == TallyFor(results, results.Keys - rest)
      decreases |rest|
    {
      var x :| x in rest;
      TallyStep(results, results.Keys - rest, x);
      assert results.Keys - rest + {x} == results.Keys - (rest - {x});
      s := CountResult(s, results[x]);
      rest := rest - {x};
    }
    assert results.Keys - rest == results.Keys;
  }

  /** The body of the loop: the kind counter, then the status counter, if any. */
  method CountResult(s0: Stats, result: FileCompareResult) returns (s: Stats)
    ensures s == CountOne(s0, result)
  {
    s := s0;
    if result.IsDirectory() {
      s := s.(totalDirs := s.totalDirs + 1);
    } else {
      s := s.(totalFiles := s.totalFiles + 1);
    }
    if result.status == FileStatus.Identical {
      s := s.(identical := s.identical + 1);
    } else if result.status == FileStatus.Modified {
      s := s.(modified := s.modified + 1);
    } else if result.status == LeftOnly {
      s := s.(leftOnly := s.leftOnly + 1);
    } else if result.status == RightOnly {
      s := s.(rightOnly := s.rightOnly + 1);
    } else if result.status == FileStatus.Error {
      s := s.(errors := s.errors + 1);
    }
  }

  /**
   * Files and directories together are all the results, and the five status
   * counters together with the uncounted TYPE_MISMATCH results are all of them too.
   */
  lemma {:induction false} TallySums(results: map<string, FileCompareResult>, done: set<string>)
    requires done <= results.Keys
    ensures var s := TallyFor(results, done);
      s.totalFiles + s.totalDirs == |done| &&
      s.identical + s.modified + s.leftOnly + s.rightOnly + s.errors + |StatusKeys(results, done, TypeMismatch)| == |done|
    decreases |done|
  {
    if done == {} {
      TallyNone(results);
      assert StatusKeys(results, {}, TypeMismatch) == {};
    } else {
      var x :| x in done;
      var rest := done - {x};
      TallySums(results, rest);
      TallyStep(results, rest, x);
      StatusKeysStep(results, rest, x, TypeMismatch);
      assert rest + {x} == done;
    }
  }

  /**
   * TYPE_MISMATCH is counted nowhere: when every result is a type mismatch the
   * comparison reports no differences and no errors, so `is_identical` holds.
   */
  lemma OnlyMismatchesLookIdentical(results: map<string, FileCompareResult>, s: Stats, root: FolderCompareNode)
    requires s == TallyFor(results, results.Keys)
    requires forall k :: k in results ==> results[k].status == TypeMismatch
    ensures FolderCompareResult("", "", root, s.totalFiles, s.totalDirs, s.identical, s.modified,
                                s.leftOnly, s.rightOnly, s.errors, None).IsIdentical()
  {
    forall st | st != TypeMismatch ensures StatusKeys(results, results.Keys, st) == {} {
    }
  }

  // ---------------------------------------------------------------- QuickComparer

  /** `(size, mtime)` of a file; mtimes are integer nanoseconds, a missing one counts as 0. */
  datatype Stamp = Stamp(size: int, mtime: int)

  const NanosPerSecond := 1_000_000_000

  function StampOf(m: FileMetadata): Stamp
  {
    Stamp(m.size, if m.modifiedTime.Some? then m.modifiedTime.value else 0)
  }

  /** The files of a lazy scan, by path; a later pair for the same path wins. */
  function FileStamps(scan: seq<(string, FileMetadata)>): map<string, Stamp>
  {
    if scan == [] then map[]
    else
      var prev := FileStamps(scan[..|scan| - 1]);
      var (p, meta) := scan[|scan| - 1];
      if meta.IsFile() then prev[p := StampOf(meta)] else prev
  }

  /** Exactly the paths the scan reports as files are kept, each with the stamp of one of its pairs. */
  lemma {:induction false} FileStampsKeys(scan: seq<(string, FileMetadata)>)
    ensures forall p :: p in FileStamps(scan) <==> exists i :: 0 <= i < |scan| && scan[i].0 == p && scan[i].1.IsFile()
    ensures forall p :: p in FileStamps(scan) ==>
      exists i :: 0 <= i < |scan| && scan[i].0 == p && scan[i].1.IsFile() && FileStamps(scan)[p] == StampOf(scan[i].1)
  {
    if scan != [] {
      var init := scan[..|scan| - 1];
      FileStampsKeys(init);
      forall p | (exists i :: 0 <= i < |scan| && scan[i].0 == p && scan[i].1.IsFile())
        ensures p in FileStamps(scan)
      {
        var i :| 0 <= i < |scan| && scan[i].0 == p && scan[i].1.IsFile();
        if i < |init| {
          assert init[i] == scan[i];
        }
      }
      forall p | p in FileStamps(scan)
        ensures exists i :: 0 <= i < |scan| && scan[i].0 == p && scan[i].1.IsFile() && FileStamps(scan)[p] == StampOf(scan[i].1)
      {
        if scan[|scan| - 1].0 == p && scan[|scan| - 1].1.IsFile() {
        } else {
          assert FileStamps(scan) == if scan[|scan| - 1].1.IsFile() then FileStamps(init)[scan[|scan| - 1].0 := StampOf(scan[|scan| - 1].1)] else FileStamps(init);
          assert p in FileStamps(init) && FileStamps(scan)[p] == FileStamps(init)[p];
          var i :| 0 <= i < |init| && init[i].0 == p && init[i].1.IsFile() && FileStamps(init)[p] == StampOf(init[i].1);
          assert scan[i] == init[i];
        }
      }
    }
  }

  /** The loop collecting one side's files. */
  method QuickFiles(scan: seq<(string, FileMetadata)>) returns (m: map<string, Stamp>)
    ensures m == FileStamps(scan)
  {
    m := map[];
    for i := 0 to |scan|
      invariant m == FileStamps(scan[..i])
    {
      assert scan[..i + 1][..i] == scan[..i];
      var (relPath, meta) := scan[i];
      if meta.IsFile() {
        m := m[relPath := StampOf(meta)];
      }
    }
    assert scan[..|scan|] == scan;
  }

  /** The status string `QuickComparer.compare` gives a path. */
  function QuickStatus(lf: map<string, Stamp>, rf: map<string, Stamp>, p: string): string
  {
    if p in lf && p in rf then
      if lf[p].size == rf[p].size && -2 * NanosPerSecond < lf[p].mtime - rf[p].mtime < 2 * NanosPerSecond then "identical"
      else "modified"
    else if p in lf then "left_only"
    else "right_only"
  }

  /**
   * A two-sided file is 'identical' iff the sizes match and the mtimes differ by
   * less than two seconds, and 'modified' otherwise; a one-sided file is
   * 'left_only' or 'right_only' by its side.
   */
  lemma QuickStatusTable(lf: map<string, Stamp>, rf: map<string, Stamp>, p: string)
    requires p in lf || p in rf
    ensures QuickStatus(lf, rf, p) == "identical" <==>
      p in lf && p in rf && lf[p].size == rf[p].size && Abs(lf[p].mtime - rf[p].mtime) < 2 * NanosPerSecond
    ensures QuickStatus(lf, rf, p) == "modified" <==>
      p in lf && p in rf && !(lf[p].size == rf[p].size && Abs(lf[p].mtime - rf[p].mtime) < 2 * NanosPerSecond)
    ensures QuickStatus(lf, rf, p) == "left_only" <==> p in lf && p !in rf
    ensures QuickStatus(lf, rf, p) == "right_only" <==> p !in lf && p in rf
  {
  }

  function Abs(x: int): nat
  {
    if x < 0 then -x else x
  }

  /** Swapping the two folders swaps 'left_only' and 'right_only' and keeps the other statuses. */
  lemma QuickStatusSymmetric(lf: map<string, Stamp>, rf: map<string, Stamp>, p: string)
    requires p in lf || p in rf
    ensures QuickStatus(lf, rf, p) == "left_only" <==> QuickStatus(rf, lf, p) == "right_only"
    ensures QuickStatus(lf, rf, p) in {"identical", "modified"} ==> QuickStatus(rf, lf, p) == QuickStatus(lf, rf, p)
  {
  }

  /**
   * `QuickComparer.compare` on the two lazy scans: one status per file path of
   * either side.
   */
  method QuickCompare(leftScan: seq<(string, FileMetadata)>, rightScan: seq<(string, FileMetadata)>)
    returns (result: map<string, string>)
    ensures result.Keys == FileStamps(leftScan).Keys + FileStamps(rightScan).Keys
    ensures forall p :: p in result ==> result[p] == QuickStatus(FileStamps(leftScan), FileStamps(rightScan), p)
  {
    var leftFiles := QuickFiles(leftScan);
    var rightFiles := QuickFiles(rightScan);
    result := QuickStatuses(leftFiles, rightFiles);
  }

  /** The comparing loop of `QuickComparer.compare`. */
  method QuickStatuses(leftFiles: map<string, Stamp>, rightFiles: map<string, Stamp>) returns (result: map<string, string>)
    ensures result.Keys == leftFiles.Keys + rightFiles.Keys
    ensures forall p :: p in result ==> result[p] == QuickStatus(leftFiles, rightFiles, p)
  {
    result := map[];
    var all := leftFiles.Keys + rightFiles.Keys;
    var rest := all;
    while rest != {}
      invariant rest <= all && result.Keys == all - rest
      invariant forall p :: p in result ==> result[p] == QuickStatus(leftFiles, rightFiles, p)
      decreases |rest|
    {
      var path :| path in rest;
      var status := QuickStatusOf(leftFiles, rightFiles, path);
      result := result[path := status];
      rest := rest - {path};
    }
  }

  /** The body of the comparing loop for one path. */
  method QuickStatusOf(leftFiles: map<string, Stamp>, rightFiles: map<string, Stamp>, path: string) returns (status: string)
    ensures status == QuickStatus(leftFiles, rightFiles, path)
  {
    if path in leftFiles && path in rightFiles {
      var l, r := leftFiles[path], rightFiles[path];
      if l.size == r.size && Abs(l.mtime - r.mtime) < 2 * NanosPerSecond {
        status := "identical";
      } else {
        status := "modified";
      }
    } else if path in leftFiles {
      status := "left_only";
    } else {
      status := "right_only";
    }
  }
}
