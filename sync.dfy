/**
 * Folder synchronisation planning (app/core/folder/sync.py): the rule table that
 * turns comparison statuses into sync items, the plan built from a comparison tree,
 * the conflict scan, and the counters kept while a plan is executed. Copying and
 * deleting are file-system effects; their outcome for each item is an input.
 */
module FolderSync {
  import opened Wrappers
  import opened Models

  datatype SyncOptions = SyncOptions(
    direction: SyncDirection,
    syncNewFiles: bool,
    syncModifiedFiles: bool,
    syncDeletions: bool,
    overwriteNewer: bool,
    skipConflicts: bool,
    previewOnly: bool)

  /** The dataclass defaults: left to right, new and modified files, no deletions. */
  const DefaultOptions := SyncOptions(LeftToRight, true, true, false, false, true, false)

  datatype SyncConflict = SyncConflict(
    relativePath: string,
    leftMetadata: Option<FileMetadata>,
    rightMetadata: Option<FileMetadata>,
    reason: string,
    suggestedAction: SyncAction)

  /** `root / relative_path` for the relative paths the comparison produces. */
  function JoinPath(root: string, rel: string): string
  {
    root + "/" + rel
  }

  /** The fields of the SyncItem every copy carries. */
  function CopyItem(r: FileCompareResult, action: SyncAction, src: string, dst: string,
                    srcMeta: Option<FileMetadata>, dstMeta: Option<FileMetadata>, reason: string): SyncItem
  {
    SyncItem(r.relativePath, action, Some(JoinPath(src, r.relativePath)), Some(JoinPath(dst, r.relativePath)),
             srcMeta, dstMeta, reason)
  }

  function SkipItem(r: FileCompareResult, reason: string): SyncItem
  {
    SyncItem(r.relativePath, Skip, None, None, None, None, reason)
  }

  /** The modification time `_create_modified_sync_item` reads from optional metadata. */
  function TimeOf(m: Option<FileMetadata>): Option<int>
  {
    if m.Some? then m.value.modifiedTime else None
  }

  /** `_create_modified_sync_item`: one-way directions copy; two-way compares times. */
  function ModifiedSyncItem(o: SyncOptions, r: FileCompareResult, leftRoot: string, rightRoot: string): (item: SyncItem)
    ensures item.relativePath == r.relativePath && !item.IsDelete()
    ensures o.direction == LeftToRight ==> item.action == CopyToRight
    ensures o.direction == RightToLeft ==> item.action == CopyToLeft
  {
    var lm := r.leftMetadata;
    var rm := r.rightMetadata;
    match o.direction
    case LeftToRight =>
      CopyItem(r, CopyToRight, leftRoot, rightRoot, lm, rm, "Modified - copying left to right")
    case RightToLeft =>
      CopyItem(r, CopyToLeft, rightRoot, leftRoot, rm, lm, "Modified - copying right to left")
    case Bidirectional =>
      var lt := TimeOf(lm);
      var rt := TimeOf(rm);
      if lt.Some? && rt.Some? then
        if o.skipConflicts then
          SyncItem(r.relativePath, SyncAction.Conflict, None, None, lm, rm, "Conflict - modified on both sides")
        else if lt.value > rt.value then
          CopyItem(r, CopyToRight, leftRoot, rightRoot, lm, rm, "Left is newer")
        else
          CopyItem(r, CopyToLeft, rightRoot, leftRoot, rm, lm, "Right is newer")
      else
        SkipItem(r, "Cannot determine newer version")
  }

  /** `_create_sync_item`: None for IDENTICAL, otherwise an item (SKIP when no rule fires). */
  function SyncItemFor(o: SyncOptions, r: FileCompareResult, leftRoot: string, rightRoot: string): (item: Option<SyncItem>)
    ensures item.None? <==> r.status == FileStatus.Identical
    ensures item.Some? ==> item.value.relativePath == r.relativePath
    ensures item.Some? && item.value.IsDelete() ==> o.syncDeletions
    ensures item.Some? && o.direction == LeftToRight ==> item.value.action != CopyToLeft && item.value.action != DeleteLeft
    ensures item.Some? && o.direction == RightToLeft ==> item.value.action != CopyToRight && item.value.action != DeleteRight
  {
    var d := o.direction;
    if r.status == FileStatus.Identical then None
    else if r.status == LeftOnly && (d == LeftToRight || d == Bidirectional) && o.syncNewFiles then
      Some(SyncItem(r.relativePath, CopyToRight, Some(JoinPath(leftRoot, r.relativePath)),
                    Some(JoinPath(rightRoot, r.relativePath)), r.leftMetadata, None, "New file in left"))
    else if r.status == LeftOnly && d == RightToLeft && o.syncDeletions then
      Some(SyncItem(r.relativePath, DeleteLeft, Some(JoinPath(leftRoot, r.relativePath)), None,
                    r.leftMetadata, None, "Does not exist in right"))
    else if r.status == RightOnly && (d == RightToLeft || d == Bidirectional) && o.syncNewFiles then
      Some(SyncItem(r.relativePath, CopyToLeft, Some(JoinPath(rightRoot, r.relativePath)),
                    Some(JoinPath(leftRoot, r.relativePath)), r.rightMetadata, None, "New file in right"))
    else if r.status == RightOnly && d == LeftToRight && o.syncDeletions then
      Some(SyncItem(r.relativePath, DeleteRight, Some(JoinPath(rightRoot, r.relativePath)), None,
                    r.rightMetadata, None, "Does not exist in left"))
    else if r.status == FileStatus.Modified && o.syncModifiedFiles then
      Some(ModifiedSyncItem(o, r, leftRoot, rightRoot))
    else
      Some(SkipItem(r, "No action needed"))
  }

  /** The action planned for an entry, or None when no item is produced. */
  function ActionFor(o: SyncOptions, r: FileCompareResult): Option<SyncAction>
  {
    var item := SyncItemFor(o, r, "", "");
    if item.Some? then Some(item.value.action) else None
  }

  /** New files are copied towards the side that lacks them whenever the direction allows it. */
  lemma NewFilesCopied(o: SyncOptions, r: FileCompareResult)
    requires o.syncNewFiles
    ensures r.status == LeftOnly && o.direction != RightToLeft ==> ActionFor(o, r) == Some(CopyToRight)
    ensures r.status == RightOnly && o.direction != LeftToRight ==> ActionFor(o, r) == Some(CopyToLeft)
    ensures r.status == LeftOnly && o.direction == RightToLeft ==>
      ActionFor(o, r) == Some(if o.syncDeletions then DeleteLeft else Skip)
    ensures r.status == RightOnly && o.direction == LeftToRight ==>
      ActionFor(o, r) == Some(if o.syncDeletions then DeleteRight else Skip)
  {
  }

  /**
   * A two-way MODIFIED entry: both timestamps and skip_conflicts give CONFLICT; both
   * timestamps otherwise copy from the strictly newer left or else from the right; a
   * missing timestamp gives SKIP.
   */
  lemma BidirectionalModified(o: SyncOptions, r: FileCompareResult)
    requires o.direction == Bidirectional && o.syncModifiedFiles && r.status == FileStatus.Modified
    ensures var lt := TimeOf(r.leftMetadata); var rt := TimeOf(r.rightMetadata);
      ActionFor(o, r) == Some(
        if lt.None? || rt.None? then Skip
        else if o.skipConflicts then SyncAction.Conflict
        else if lt.value > rt.value then CopyToRight
        else CopyToLeft)
  {
  }

  /** One-way MODIFIED entries are always copied from the source side. */
  lemma OneWayModified(o: SyncOptions, r: FileCompareResult, leftRoot: string, rightRoot: string)
    requires o.syncModifiedFiles && r.status == FileStatus.Modified && o.direction != Bidirectional
    ensures var item := SyncItemFor(o, r, leftRoot, rightRoot).value;
      item.action == (if o.direction == LeftToRight then CopyToRight else CopyToLeft) &&
      item.sourcePath == Some(JoinPath(if o.direction == LeftToRight then leftRoot else rightRoot, r.relativePath)) &&
      item.destPath == Some(JoinPath(if o.direction == LeftToRight then rightRoot else leftRoot, r.relativePath))
  {
  }

  /** TYPE_MISMATCH, ERROR and MODIFIED with sync_modified_files off fall through to SKIP. */
  lemma FallThroughSkip(o: SyncOptions, r: FileCompareResult)
    ensures r.status in {TypeMismatch, FileStatus.Error} ==> ActionFor(o, r) == Some(Skip)
    ensures r.status == FileStatus.Modified && !o.syncModifiedFiles ==> ActionFor(o, r) == Some(Skip)
  {
  }

  // ---------------------------------------------------------------- create_plan

  /** What `create_plan` keeps of one node: nothing for the root, for IDENTICAL and for SKIP. */
  function NodeItems(o: SyncOptions, n: FolderCompareNode, leftRoot: string, rightRoot: string): seq<SyncItem>
  {
    if n.result.relativePath == "" then []
    else
      var item := SyncItemFor(o, n.result, leftRoot, rightRoot);
      if item.Some? && item.value.action != Skip then [item.value] else []
  }

  /** The plan items for a walk of nodes, in walk order. */
  function PlanItems(o: SyncOptions, ns: seq<FolderCompareNode>, leftRoot: string, rightRoot: string): seq<SyncItem>
  {
    if ns == [] then []
    else PlanItems(o, ns[..|ns| - 1], leftRoot, rightRoot) + NodeItems(o, ns[|ns| - 1], leftRoot, rightRoot)
  }

  /** `create_plan`: walks the tree in preorder and appends every kept item. */
  method CreatePlan(o: SyncOptions, cr: FolderCompareResult) returns (plan: SyncPlan)
    ensures plan.items == PlanItems(o, cr.root.IterAll(), cr.leftPath, cr.rightPath)
    ensures plan.direction == o.direction && plan.leftPath == cr.leftPath && plan.rightPath == cr.rightPath
  {
    var nodes := cr.root.IterAll();
    var items: seq<SyncItem> := [];
    var i := 0;
    while i < |nodes|
      invariant 0 <= i <= |nodes|
      invariant items == PlanItems(o, nodes[..i], cr.leftPath, cr.rightPath)
    {
      PlanItemsStep(o, nodes, i, cr.leftPath, cr.rightPath);
      var node := nodes[i];
      if node.result.relativePath != "" {
        var item := SyncItemFor(o, node.result, cr.leftPath, cr.rightPath);
        if item.Some? && item.value.action != Skip {
          items := items + [item.value];
        }
      }
      i := i + 1;
    }
    assert nodes[..|nodes|] == nodes;
    plan := SyncPlan(items, o.direction, cr.leftPath, cr.rightPath);
  }

  lemma PlanItemsStep(o: SyncOptions, ns: seq<FolderCompareNode>, i: nat, leftRoot: string, rightRoot: string)
    requires i < |ns|
    ensures PlanItems(o, ns[..i + 1], leftRoot, rightRoot) == PlanItems(o, ns[..i], leftRoot, rightRoot) + NodeItems(o, ns[i], leftRoot, rightRoot)
  {
    assert ns[..i + 1][..i] == ns[..i];
  }

  /** Planning a concatenated walk plans each part in turn: the plan keeps the walk order. */
  lemma {:induction false} PlanItemsAppend(o: SyncOptions, a: seq<FolderCompareNode>, b: seq<FolderCompareNode>,
                                           leftRoot: string, rightRoot: string)
    ensures PlanItems(o, a + b, leftRoot, rightRoot) == PlanItems(o, a, leftRoot, rightRoot) + PlanItems(o, b, leftRoot, rightRoot)
    decreases |b|
  {
    if b != [] {
      var b' := b[..|b| - 1];
      assert (a + b)[..|a + b| - 1] == a + b';
      assert (a + b)[|a + b| - 1] == b[|b| - 1];
      PlanItemsAppend(o, a, b', leftRoot, rightRoot);
    } else {
      assert a + b == a;
    }
  }

  /** An item is planned exactly when some non-root node yields it as a non-SKIP item. */
  lemma {:induction false} PlanItemsMembers(o: SyncOptions, ns: seq<FolderCompareNode>, leftRoot: string, rightRoot: string, x: SyncItem)
    ensures x in PlanItems(o, ns, leftRoot, rightRoot) <==>
      exists k :: 0 <= k < |ns| && ns[k].result.relativePath != "" &&
        SyncItemFor(o, ns[k].result, leftRoot, rightRoot) == Some(x) && x.action != Skip
  {
    if ns != [] {
      var init := ns[..|ns| - 1];
      PlanItemsMembers(o, init, leftRoot, rightRoot, x);
      if x in PlanItems(o, ns, leftRoot, rightRoot) && x !in PlanItems(o, init, leftRoot, rightRoot) {
        assert x in NodeItems(o, ns[|ns| - 1], leftRoot, rightRoot);
      }
      if exists k :: 0 <= k < |ns| && ns[k].result.relativePath != "" &&
          SyncItemFor(o, ns[k].result, leftRoot, rightRoot) == Some(x) && x.action != Skip {
        var k :| 0 <= k < |ns| && ns[k].result.relativePath != "" &&
          SyncItemFor(o, ns[k].result, leftRoot, rightRoot) == Some(x) && x.action != Skip;
        if k < |ns| - 1 {
          assert init[k] == ns[k];
        } else {
          assert x in NodeItems(o, ns[|ns| - 1], leftRoot, rightRoot);
        }
      }
    }
  }

  /** No planned item is a SKIP, and one-way plans never write to their source side. */
  lemma {:induction false} PlanActions(o: SyncOptions, ns: seq<FolderCompareNode>, leftRoot: string, rightRoot: string)
    ensures forall x :: x in PlanItems(o, ns, leftRoot, rightRoot) ==>
      x.action != Skip && x.relativePath != "" &&
      (x.IsDelete() ==> o.syncDeletions) &&
      (o.direction == LeftToRight ==> x.action != CopyToLeft && x.action != DeleteLeft) &&
      (o.direction == RightToLeft ==> x.action != CopyToRight && x.action != DeleteRight)
    ensures |PlanItems(o, ns, leftRoot, rightRoot)| <= |ns|
  {
    if ns != [] {
      var last := ns[|ns| - 1];
      PlanActions(o, ns[..|ns| - 1], leftRoot, rightRoot);
    }
  }

  // ---------------------------------------------------------------- find_conflicts

  /** The conflict `find_conflicts` reports for one node, if any. */
  function NodeConflict(o: SyncOptions, r: FileCompareResult): seq<SyncConflict>
  {
    if r.status == FileStatus.Modified && o.direction == Bidirectional && r.leftMetadata.Some? && r.rightMetadata.Some? then
      [SyncConflict(r.relativePath, r.leftMetadata, r.rightMetadata, "Modified on both sides", SyncAction.Conflict)]
    else []
  }

  function ConflictsOf(o: SyncOptions, ns: seq<FolderCompareNode>): seq<SyncConflict>
  {
    if ns == [] then [] else ConflictsOf(o, ns[..|ns| - 1]) + NodeConflict(o, ns[|ns| - 1].result)
  }

  /** `find_conflicts`: scans the preorder walk, root included. */
  method FindConflicts(o: SyncOptions, cr: FolderCompareResult) returns (conflicts: seq<SyncConflict>)
    ensures conflicts == ConflictsOf(o, cr.root.IterAll())
  {
    var nodes := cr.root.IterAll();
    conflicts := [];
    for i := 0 to |nodes|
      invariant conflicts == ConflictsOf(o, nodes[..i])
    {
      assert nodes[..i + 1][..i] == nodes[..i];
      var result := nodes[i].result;
      if result.status == FileStatus.Modified && o.direction == Bidirectional {
        if result.leftMetadata.Some? && result.rightMetadata.Some? {
          conflicts := conflicts + [SyncConflict(result.relativePath, result.leftMetadata, result.rightMetadata,
                                                 "Modified on both sides", SyncAction.Conflict)];
        }
      }
    }
    assert nodes[..|nodes|] == nodes;
  }

  /** `c` is the conflict reported for the entry `r`. */
  predicate ReportedFor(c: SyncConflict, r: FileCompareResult)
  {
    r.status == FileStatus.Modified && c.relativePath == r.relativePath &&
    c.leftMetadata == r.leftMetadata && c.rightMetadata == r.rightMetadata &&
    c.leftMetadata.Some? && c.rightMetadata.Some? && c.suggestedAction == SyncAction.Conflict
  }

  /** The entries `find_conflicts` reports on. */
  predicate InConflict(o: SyncOptions, r: FileCompareResult)
  {
    o.direction == Bidirectional && r.status == FileStatus.Modified && r.leftMetadata.Some? && r.rightMetadata.Some?
  }

  /** Every reported conflict comes from a MODIFIED entry with metadata on both sides, in two-way mode only. */
  lemma {:induction false} ConflictsSound(o: SyncOptions, ns: seq<FolderCompareNode>)
    ensures o.direction != Bidirectional ==> ConflictsOf(o, ns) == []
    ensures |ConflictsOf(o, ns)| <= |ns|
    ensures forall c :: c in ConflictsOf(o, ns) ==> exists k :: 0 <= k < |ns| && ReportedFor(c, ns[k].result)
  {
    if ns != [] {
      var init := ns[..|ns| - 1];
      ConflictsSound(o, init);
      forall c | c in ConflictsOf(o, ns)
        ensures exists k :: 0 <= k < |ns| && ReportedFor(c, ns[k].result)
      {
        if c in ConflictsOf(o, init) {
          var k :| 0 <= k < |init| && ReportedFor(c, init[k].result);
          assert ns[k] == init[k];
        } else {
          assert c in NodeConflict(o, ns[|ns| - 1].result);
          assert ReportedFor(c, ns[|ns| - 1].result);
        }
      }
    }
  }

  /** In two-way mode every MODIFIED entry with metadata on both sides is reported. */
  lemma {:induction false} ConflictsComplete(o: SyncOptions, ns: seq<FolderCompareNode>)
    ensures forall k :: 0 <= k < |ns| && InConflict(o, ns[k].result) ==>
      exists c :: c in ConflictsOf(o, ns) && ReportedFor(c, ns[k].result)
  {
    if ns != [] {
      var init := ns[..|ns| - 1];
      ConflictsComplete(o, init);
      forall k | 0 <= k < |ns| && InConflict(o, ns[k].result)
        ensures exists c :: c in ConflictsOf(o, ns) && ReportedFor(c, ns[k].result)
      {
        if k < |init| {
          assert init[k] == ns[k];
          var c :| c in ConflictsOf(o, init) && ReportedFor(c, init[k].result);
          assert c in ConflictsOf(o, ns);
        } else {
          var c := NodeConflict(o, ns[k].result)[0];
          assert c in ConflictsOf(o, ns);
          assert ReportedFor(c, ns[k].result);
        }
      }
    }
  }

  // ---------------------------------------------------------------- execute

  /** The counters `execute` keeps. */
  datatype Tally = Tally(copied: nat, deleted: nat, skipped: nat, failed: nat, bytes: int, errors: seq<(string, string)>)

  /**
   * How one item changes the counters. `outcome` is what the file operation did:
   * `Ok(n)` with the bytes a copy wrote, or `Err(msg)` when it raised.
   */
  function TallyItem(t: Tally, item: SyncItem, previewOnly: bool, outcome: Result<nat>): Tally
  {
    if previewOnly || item.action == Skip || item.action == SyncAction.Conflict then t.(skipped := t.skipped + 1)
    else if outcome.Err? then t.(failed := t.failed + 1, errors := t.errors + [(item.relativePath, outcome.error)])
    else if item.IsCopy() then t.(copied := t.copied + 1, bytes := t.bytes + outcome.value)
    else t.(deleted := t.deleted + 1)
  }

  /** The counters after the first `n` items. */
  function TallyOf(items: seq<SyncItem>, n: nat, previewOnly: bool, outcomes: nat -> Result<nat>): Tally
    requires n <= |items|
  {
    if n == 0 then Tally(0, 0, 0, 0, 0, [])
    else TallyItem(TallyOf(items, n - 1, previewOnly, outcomes), items[n - 1], previewOnly, outcomes(n - 1))
  }

  /** The number of items handled before a cancellation seen at item `cancelAt`. */
  function Handled(count: nat, cancelAt: Option<nat>): (n: nat)
    ensures n <= count
  {
    if cancelAt.Some? && cancelAt.value < count then cancelAt.value else count
  }

  /**
   * `execute`. `cancelAt` is the index of the first item before which the loop sees
   * the cancel flag (None when `cancel` is never called during the run);
   * `outcomes(i)` is what copying or deleting item i did.
   */
  method Execute(o: SyncOptions, plan: SyncPlan, cancelAt: Option<nat>, outcomes: nat -> Result<nat>)
    returns (r: SyncResult)
    ensures var t := TallyOf(plan.items, Handled(|plan.items|, cancelAt), o.previewOnly, outcomes);
      r == SyncResult(t.failed == 0 && cancelAt.None?, |plan.items|, t.copied, t.deleted,
                      t.skipped, t.failed, t.bytes, t.errors)
  {
    var copied, deleted, skipped, failed, bytes: int := 0, 0, 0, 0, 0;
    var errors: seq<(string, string)> := [];
    var i := 0;
    while i < |plan.items|
      invariant 0 <= i <= Handled(|plan.items|, cancelAt)
      invariant var t := TallyOf(plan.items, i, o.previewOnly, outcomes);
        copied == t.copied && deleted == t.deleted && skipped == t.skipped &&
        failed == t.failed && bytes == t.bytes && errors == t.errors
    {
      if cancelAt.Some? && cancelAt.value <= i {
        break;
      }
      var item := plan.items[i];
      if o.previewOnly {
        skipped := skipped + 1;
      } else {
        var outcome := outcomes(i);
        if item.action == Skip || item.action == SyncAction.Conflict {
          skipped := skipped + 1;
        } else if outcome.Err? {
          failed := failed + 1;
          errors := errors + [(item.relativePath, outcome.error)];
        } else if item.IsCopy() {
          bytes := bytes + outcome.value;
          copied := copied + 1;
        } else {
          deleted := deleted + 1;
        }
      }
      i := i + 1;
    }
    assert i == Handled(|plan.items|, cancelAt);
    r := SyncResult(failed == 0 && cancelAt.None?, |plan.items|, copied, deleted, skipped, failed, bytes, errors);
  }

  /**
   * What `execute` counts: every handled item lands in exactly one counter, each
   * failure leaves one error, and a preview run skips every handled item and
   * copies nothing.
   */
  lemma {:induction false} TallyCounts(items: seq<SyncItem>, n: nat, previewOnly: bool, outcomes: nat -> Result<nat>)
    requires n <= |items|
    ensures var t := TallyOf(items, n, previewOnly, outcomes);
      t.copied + t.deleted + t.skipped + t.failed == n && |t.errors| == t.failed &&
      (previewOnly ==> t.skipped == n && t.copied == 0 && t.deleted == 0 && t.failed == 0 && t.bytes == 0)
  {
    if n > 0 {
      TallyCounts(items, n - 1, previewOnly, outcomes);
    }
  }

  /** Only copy items are counted as copied, and only delete items as deleted. */
  lemma {:induction false} TallyCopies(items: seq<SyncItem>, n: nat, previewOnly: bool, outcomes: nat -> Result<nat>)
    requires n <= |items|
    ensures TallyOf(items, n, previewOnly, outcomes).copied <= CountWhere(items[..n], CopyToLeft) + CountWhere(items[..n], CopyToRight)
    ensures TallyOf(items, n, previewOnly, outcomes).deleted <= CountWhere(items[..n], DeleteLeft) + CountWhere(items[..n], DeleteRight)
  {
    if n > 0 {
      TallyCopies(items, n - 1, previewOnly, outcomes);
      assert items[..n] == items[..n - 1] + [items[n - 1]];
      CountWhereSnoc(items[..n - 1], items[n - 1], CopyToLeft);
      CountWhereSnoc(items[..n - 1], items[n - 1], CopyToRight);
      CountWhereSnoc(items[..n - 1], items[n - 1], DeleteLeft);
      CountWhereSnoc(items[..n - 1], items[n - 1], DeleteRight);
    }
  }

  lemma {:induction false} CountWhereSnoc(items: seq<SyncItem>, x: SyncItem, action: SyncAction)
    ensures CountWhere(items + [x], action) == CountWhere(items, action) + (if x.action == action then 1 else 0)
  {
    if items == [] {
      assert items + [x] == [x];
    } else {
      CountWhereSnoc(items[1..], x, action);
      assert (items + [x])[1..] == items[1..] + [x];
    }
  }

  /** A run succeeds exactly when no item failed and it was not cancelled; a preview run always succeeds unless cancelled. */
  lemma ExecuteSuccess(o: SyncOptions, plan: SyncPlan, cancelAt: Option<nat>, outcomes: nat -> Result<nat>)
    ensures var t := TallyOf(plan.items, Handled(|plan.items|, cancelAt), o.previewOnly, outcomes);
      o.previewOnly ==> (t.failed == 0 && cancelAt.None?) == cancelAt.None?
  {
    TallyCounts(plan.items, Handled(|plan.items|, cancelAt), o.previewOnly, outcomes);
  }
}
