# TwinScope comparison and merge engine, modelled in Dafny

TwinScope is a desktop tool that compares and merges files and folders. This
project models the deterministic core behind its views:

- the three-way merge engine: base-aligned diff regions, the region sweep,
  consolidation, strategies, user resolutions and the rebuild with git-style
  conflict markers;
- the conflict-marker parser, the suggestion ranking and the auto-merger;
- the text-diff helpers: line normalisation, the patience and histogram
  anchors, opcode assembly, blank-line filtering, the line builders, hunk and
  statistics assembly, and intraline spans;
- byte comparison, chunk grouping, the hex dump, and the BPATCH01 patch format;
- folder comparison: the status table, the single-file decision ladder, the
  result tree, statistics, and the quick comparer;
- the scanner's include rule, the gitignore-style pattern matcher, and the
  directory tree;
- synchronisation planning and the counting part of its execution;
- the line, encoding and binary-file helpers of the file service;
- theme parsing, the recent-path list, and the settings dictionary round trip;
- the pure logic of three widgets: search navigation, history and
  highlighting; the overview bar's hunk grouping; and the diff editor's line
  numbering, match stepping and hunk navigation.

Each source file becomes one Dafny module:

| module | file |
|---|---|
| `ThreeWay`, `ThreeWayEngine` | app/core/merge/three_way.py |
| `ConflictResolver` | app/core/merge/conflict_resolver.py |
| `Models` | app/core/models.py |
| `TextDiff`, `TextDiffAnchors` | app/core/diff/text_diff.py |
| `BinaryDiff`, `BinaryPatch` | app/core/diff/binary_diff.py |
| `FolderComparer`, `FolderCompareTree` | app/core/folder/comparer.py |
| `Scanner` | app/core/folder/scanner.py |
| `FolderSync` | app/core/folder/sync.py |
| `FileIO` | app/services/file_io.py |
| `Settings` | app/services/settings.py |
| `Search` | app/ui/widgets/search_widget.py |
| `DiffOverview` | app/ui/widgets/diff_overview.py |
| `DiffTextEdit` | app/ui/widgets/diff_text_edit.py |

`TextUtil`, `Ordering`, `Opcodes` and `Wrappers` hold shared helpers: slicing
with Python's clamping, string splitting and joining, string order, and
`Option`/`Result`.

Code that changes state step by step is modelled as methods with loops and
invariants. Each such method is proved equal to a specification function, and
the properties are lemmas about that function. Objects whose methods update
fields in place are classes:

- `Search.SearchHistory`, `Search.SearchEngine`, `Search.MatchHighlighter`;
- `Scanner.PatternMatcher`, `Scanner.DirectoryTree`;
- `Settings.SettingsManager`;
- `DiffOverview.DiffOverviewBar`;
- `DiffTextEdit.DiffTextView`, `DiffTextEdit.UnifiedDiffView`.

Python exceptions become the `Err` case of a `Result`, carrying the exception
kind (for example `"ValueError"` or `"struct.error"`). Integers are unbounded.
Python's floor division, its clamped slices and its negative indices are
written out where the source relies on them.

Some things the source takes from libraries or the machine are parameters of
the model:

- `difflib.SequenceMatcher.get_opcodes` is a `Matcher` function. The model
  assumes only that it returns a gap-free opcode list covering both inputs
  (`MatcherValid`).
- Content equality, regex search, `fnmatch`, timestamps and I/O outcomes are
  parameters as well.

The known defects of the source are handled as follows:

- `DiffRegion` is unhashable, yet the sweep stores regions in sets
  (three_way.py:38, 233-240, 270-285). `ThreeWay.MergeDiffRegions` keeps the
  active and involved regions as sets of region indices, which is what the
  sweep evidently means.
- `Diff3Merge.diff3` can fail to advance (three_way.py:753-759, 796-801). It is
  left out; see below.
- When the file grows, the BPATCH01 writer records an `original_length` that is
  longer than the original bytes it writes (binary_diff.py:560, 631-634 against
  661-662).
  - `BinaryPatch.CreatePatch` writes the corrected entry.
  - The entry as written is kept as `Created(.., true)`.
  - `BinaryPatch.GrowthPatchRejected` shows that applying it fails.
- `create_patch` takes its differences from `compare_bytes` with the default
  cap of 1000 (binary_diff.py:30, 544), so a patch for data with more
  differences silently leaves the rest out.
  - `BinaryPatch.CreatePatch` compares without the cap.
  - `BinaryPatch.CappedPatchLosesDifferences` shows what the capped patch gives back.
- `has_conflict_markers`, `_create_cancelled_result`, the error branch of
  `compare_files` and the misplaced `SearchController_Old` methods are outside
  the model; see "Left out". `find_next` and `find_prev` are modelled as the
  `SearchEngine` operations they were meant to be.

## Model

| member | source | states |
|---|---|---|
| ThreeWay.ComputeDiffRegions | app/core/merge/three_way.py:161-191 | the regions are the non-equal opcodes in order; they are disjoint, increasing in base, and each carries the other side's lines for its opcode |
| ThreeWay.MapBaseToOther | app/core/merge/three_way.py:417-472 | a base position maps to the other side by the net shift of the diff regions that end before it, with the left or right bias at a region's edge |
| ThreeWay.MergeDiffRegions | app/core/merge/three_way.py:193-386 | the merge regions tile 0..len(base) in order; each region's type and lines follow the left and right diffs touching it (UNCHANGED carries base lines, one side only carries that side's lines, BOTH_CHANGED_SAME and CONFLICT as classified); no two UNCHANGED regions are adjacent; every diff region lies inside one merge region |
| ThreeWay.ConsolidateRegions | app/core/merge/three_way.py:388-415 | the loop computes the consolidation of the region list |
| ThreeWay.ConsolidateProps | app/core/merge/three_way.py:388-415 | consolidation leaves no adjacent UNCHANGED pair, keeps the flattened lines, never lengthens the list, and preserves tiling |
| ThreeWay.ConsolidateIdentity | app/core/merge/three_way.py:388-415 | a list with no adjacent UNCHANGED regions is left as it is, so consolidation is idempotent |
| ThreeWayEngine.NewEngine | app/core/merge/three_way.py:72-84 | the engine keeps the strategy and uses the four git-style marker lines |
| ThreeWayEngine.RegionTypeToOrigin | app/core/merge/three_way.py:545-554 | CONFLICT regions map to the conflict origin and UNCHANGED ones to base; nothing maps to RESOLVED |
| ThreeWayEngine.CreateConflict | app/core/merge/three_way.py:474-496 | a conflict copies the region's ranges and three line lists, is unresolved, has the given id, and is auto-resolved exactly when the strategy is not MANUAL |
| ThreeWayEngine.Choice | app/core/merge/three_way.py:504-530 | MANUAL makes no choice; FAVOR_LEFT/RIGHT take that side; FAVOR_SHORTER takes left when it is not longer; FAVOR_LONGER takes left when it is not shorter |
| ThreeWayEngine.ResolveConflict | app/core/merge/three_way.py:498-543 | MANUAL gives the marker block and clears the auto flag; any other strategy records the chosen resolution and gives the chosen side's lines (so the shorter or longer length); resolved_lines is stored only in the corrected variant |
| ThreeWayEngine.Merge | app/core/merge/three_way.py:86-159 | the regions satisfy the sweep's contract for the two diff lists; the conflicts are the as-written conflicts of the CONFLICT regions; merged and tagged lines follow the regions; has_conflicts holds iff a conflict exists; the auto-resolved count is exact |
| ThreeWayEngine.ConflictsOfShape | app/core/merge/three_way.py:126-159 | there is one conflict per CONFLICT region, in region order, and its id is its position 0..k-1 |
| ThreeWayEngine.ConflictOutcome | app/core/merge/three_way.py:126-159 | each conflict carries its region's lines and no resolved lines; under MANUAL it is unresolved and renders as the marker block, otherwise it records the strategy's choice |
| ThreeWayEngine.TaggedMatchesMerged | app/core/merge/three_way.py:126-159 | the tagged three-way lines have the same contents as the merged lines, line by line |
| ThreeWayEngine.MergedWithoutConflicts | app/core/merge/three_way.py:126-159 | without CONFLICT regions the merge is the concatenation of the region lines and has no conflicts |
| ThreeWayEngine.StrategyOutcome | app/core/merge/three_way.py:504-543 | under MANUAL no conflict is auto-resolved and all are unresolved; under any other strategy all are auto-resolved and none is unresolved |
| ThreeWayEngine.NoDiffsMerge | app/core/merge/three_way.py:114-159 | with no diff regions on either side the merge is one UNCHANGED region holding the base (none for an empty base), with no conflicts and merged lines equal to the base |
| ThreeWayEngine.PreviewShape | app/core/merge/three_way.py:672-690 | both "use both" previews hold exactly the left and right lines, and start with the left or the right side respectively; any preview draws only on the conflict's lines; UNRESOLVED and CUSTOM preview nothing |
| ThreeWayEngine.PreviewAgreesWithApply | app/core/merge/three_way.py:556-642 | for every resolution except UNRESOLVED and CUSTOM, the lines that apply_resolution installs are exactly the preview |
| ThreeWayEngine.FirstConflictAt | app/core/merge/three_way.py:590-600 | the search finds the first CONFLICT region with the conflict's base start, or shows that there is none |
| ThreeWayEngine.FindConflictRegion | app/core/merge/three_way.py:590-600 | the loop returns that first matching region |
| ThreeWayEngine.ApplyResolution | app/core/merge/three_way.py:556-642 | the method computes the apply specification |
| ThreeWayEngine.ApplyErrors | app/core/merge/three_way.py:575-600 | an id at or past the conflict count raises ValueError and one below -count raises IndexError; when the region is found, the call fails exactly for UNRESOLVED or for CUSTOM without lines |
| ThreeWayEngine.ApplyEffect | app/core/merge/three_way.py:575-642 | on success only the chosen conflict changes: it becomes resolved with the given resolution and the lines its region yields; the regions and tagged lines are reused and has_conflicts reflects the unresolved count |
| ThreeWayEngine.UnresolvedAfterUpdate | app/core/merge/three_way.py:630-642 | resolving one conflict lowers the unresolved count by one if it was unresolved and leaves it otherwise |
| ThreeWayEngine.ApplyToMergeResult | app/core/merge/three_way.py:556-670 | applied to a fresh merge result, the new merged lines reopen every other conflict as markers and install the chosen lines; conflicts remain iff the strategy is MANUAL and there were at least two |
| ThreeWayEngine.RebuildMergedLines | app/core/merge/three_way.py:644-670 | the loop rebuilds as written: a conflict contributes its resolved lines only when a resolution is set and the lines are non-empty, and the marker block otherwise; other regions contribute their lines |
| ThreeWayEngine.RebuiltReopened | app/core/merge/three_way.py:644-670 | when only one conflict carries resolved lines, the rebuild is the merge with that conflict installed and all others shown as marker blocks |
| ThreeWayEngine.RebuildOfMergeResult | app/core/merge/three_way.py:644-670 | rebuilding a fresh merge result shows every conflict as a marker block, whatever the strategy |
| ThreeWayEngine.RebuiltWithoutConflicts | app/core/merge/three_way.py:644-670 | without CONFLICT regions the rebuild is the concatenation of the region lines |
| ThreeWayEngine.EmptyResolutionRebuiltAsMarkers | app/core/merge/three_way.py:657 | a conflict resolved to an empty left side is resolved, yet the rebuild shows markers where the corrected rebuild shows nothing |
| ThreeWayEngine.AutoResolutionLostOnRebuild | app/core/merge/three_way.py:504-543 | a FAVOR_LEFT conflict is resolved but keeps no lines, so the merge shows the left line while the rebuild shows markers |
| ThreeWayEngine.RebuildAgreesWithMerge | app/core/merge/three_way.py:644-670 | with resolved lines recorded and empty resolutions kept, the rebuild reproduces the merged lines of every non-MANUAL merge |
| ThreeWayEngine.RebuildOfRecordedMergeResult | app/core/merge/three_way.py:644-670 | the corrected merge result rebuilds to its own merged lines |
| ConflictResolver.SortByConfidence | app/core/merge/conflict_resolver.py:96-99 | the ordering is non-increasing in confidence, is a permutation of its input, and is stable: for every confidence, the suggestions at it keep their input order |
| ConflictResolver.InsertKeepsTies | app/core/merge/conflict_resolver.py:96-99 | inserting into an ordered list places the new suggestion after every suggestion of equal confidence, so ties keep their order |
| ConflictResolver.Analyze | app/core/merge/conflict_resolver.py:31-99 | the suggestions are a permutation of the candidate suggestions, in non-increasing confidence order, and suggestions of equal confidence keep the order in which they were appended |
| ConflictResolver.CandidatesProps | app/core/merge/conflict_resolver.py:40-66 | USE_RIGHT at 0.8 is present iff left is empty and right is not; USE_LEFT at 0.8 iff the mirror; USE_LEFT at 0.9 iff the stripped sides are equal; no confidence exceeds 0.9 |
| ConflictResolver.AnalyzeDeletion | app/core/merge/conflict_resolver.py:40-54 | the two deletion suggestions appear in the analysis exactly in the one-side-empty cases |
| ConflictResolver.AnalyzeWhitespaceFirst | app/core/merge/conflict_resolver.py:57-66 | the whitespace suggestion is present iff the stripped sides are equal, and it is then ranked first |
| ConflictResolver.CandidatesAtNine | app/core/merge/conflict_resolver.py:57-66 | only the whitespace rule yields confidence 0.9 |
| ConflictResolver.UpToNewlineProps | app/core/merge/conflict_resolver.py:156-188 | a marker label is the prefix of the rest of the line up to the first line break |
| ConflictResolver.Classify | app/core/merge/conflict_resolver.py:127-130 | a line opens a block iff it matches `^<{7}\s*(.*)$`: seven '<', optional whitespace, then text up to the end or to one final newline (so "<<<<<<< a\nb" is no opener); it closes iff it matches the same pattern with '>'; an opener is no other marker, and a base or separator line closes nothing; labels are non-empty, defaulting to LEFT and RIGHT |
| ConflictResolver.MarkerLineGroup | app/core/merge/conflict_resolver.py:127-130 | a line of seven marker characters, a space, a label and a newline matches its marker pattern with the label as the group |
| ConflictResolver.ReadBlock | app/core/merge/conflict_resolver.py:150-188 | the inner loop reads the block that the scan specification describes |
| ConflictResolver.ParseConflicts | app/core/merge/conflict_resolver.py:138-191 | the method returns the conflicts the parse specification describes |
| ConflictResolver.ParseFromProps | app/core/merge/conflict_resolver.py:138-191 | parsed conflicts are increasing and disjoint; each opens on a start marker and closes on the first end marker after it, with start < end and non-empty labels; no opener precedes the first one |
| ConflictResolver.ScanBlockEnd | app/core/merge/conflict_resolver.py:150-188 | a block closes at the first end marker; an unterminated opener yields no block |
| ConflictResolver.ScanBlockKeepsBody | app/core/merge/conflict_resolver.py:156-188 | every body line of a block lands in exactly one section, and marker lines land in none |
| ConflictResolver.ScanBlockTwoWay | app/core/merge/conflict_resolver.py:156-188 | in a block without base or separator markers, all body lines go to the left section in order |
| ConflictResolver.ScanPlain | app/core/merge/conflict_resolver.py:181-188 | a run of lines that are no markers is appended, in order, to the section the scan is in, and the other sections are unchanged |
| ConflictResolver.ScanBlockSeparated | app/core/merge/conflict_resolver.py:170-187 | for a body L + [separator] + R closed by an end marker, with no marker line in L or R, the block has left lines L, no base lines and right lines R |
| ConflictResolver.ScanBlockDiff3 | app/core/merge/conflict_resolver.py:170-187 | for a body L + [base marker] + B + [separator] + R closed by an end marker, with no marker line in L, B or R, the block has left lines L, base lines B and right lines R |
| ConflictResolver.ParseDiff3Block | app/core/merge/conflict_resolver.py:138-191 | parsing a diff3 marker block whose parts hold no marker line yields exactly one conflict spanning the block, with the three parts as its left, base and right lines |
| ConflictResolver.ParseTwoWayBlock | app/core/merge/conflict_resolver.py:138-191 | parsing a two-way marker block whose sides hold no marker line yields one conflict spanning the block, with its sides as left and right lines and no base lines |
| ConflictResolver.ParseMarkerBlock | app/core/merge/three_way.py:533-543 | the marker block the merge engine writes for a conflict, with the default markers, parses back to one conflict with the region's left, base and right lines and labels LEFT and RIGHT |
| ConflictResolver.ParseRebuildBlock | app/core/merge/three_way.py:660-665 | the block the rebuild writes for an open conflict parses back to one conflict with the region's left and right lines and no base lines |
| ConflictResolver.PickIsPreview | app/core/models.py:794-808 | replacing a block keeps the lines that the conflict's preview shows for the same resolution |
| ConflictResolver.RemoveConflictMarkers | app/core/merge/conflict_resolver.py:194-248 | the loop computes the marker-removal specification |
| ConflictResolver.RemoveIsStitch | app/core/merge/conflict_resolver.py:194-248 | removal copies the lines between the parsed conflicts in order and puts each block's pick (left, right, base, both orders, or nothing for CUSTOM and UNRESOLVED) in its place |
| ConflictResolver.RemoveWithoutMarkers | app/core/merge/conflict_resolver.py:194-248 | input without an opening marker is returned unchanged and parses to no conflicts |
| ConflictResolver.TryResolveConflict | app/core/merge/conflict_resolver.py:299-322 | USE_LEFT when the sides match after rstrip (whitespace option) or exactly (identical option); otherwise CUSTOM exactly when a custom resolver answers, with the first answer; otherwise nothing |
| ConflictResolver.IdenticalMatchesWhitespace | app/core/merge/conflict_resolver.py:299-322 | with the whitespace option on, identical sides always resolve to USE_LEFT |
| ConflictResolver.TryResolve | app/core/merge/conflict_resolver.py:299-322 | the loop over the custom resolvers gives the same answer as the decision function |
| ConflictResolver.TryAutoResolve | app/core/merge/conflict_resolver.py:266-297 | the method computes the auto-resolve specification over the conflicts in order |
| ConflictResolver.AutoResolveCount | app/core/merge/conflict_resolver.py:266-297 | the count is exactly the number of unresolved conflicts the merger could resolve, so conflicts that already have a resolution are skipped; with none the result is returned unchanged |
| Models.DiffLine.DisplayContent | app/core/models.py:163-166 | the display text is the content with its trailing run of '\r' and '\n' removed: a prefix of the content that does not end in either, and everything after it is '\r' or '\n' |
| Models.DiffLine.LineNumber | app/core/models.py:173-176 | the left number when it is set and non-zero, else the right number |
| Models.ChangeCountMatchesIterChanges | app/core/models.py:243-254 | change_count equals the number of lines iter_changes yields and is at most the line count |
| Models.ExtensionOfName | app/core/models.py:549-554 | a file named stem.ext has the lower-cased ext as its extension |
| Models.HasDifferencesIffIterDifferent | app/core/models.py:645-663 | iter_all starts at the node itself; has_differences holds iff some node of the subtree is not IDENTICAL, iff iter_different yields something |
| Models.IterAllOfMember | app/core/models.py:651-655 | the walk of a child list contains the walk of each child |
| Models.IterAllTrans | app/core/models.py:651-655 | a node met in the walk has its own walk inside the walk |
| Models.MergeResult.GetConflict | app/core/models.py:865-876 | the first conflict with the id, or None iff no conflict has it |
| Models.ResolutionCounts | app/core/models.py:848-863 | resolved + unresolved = conflict count, and fully resolved iff the unresolved count is 0 |
| Models.SyncPlan.TotalBytes | app/core/models.py:926-932 | the loop sums the source sizes of the copy items that carry source metadata |
| Models.WithAction | app/core/models.py:934-940 | exactly the items with the action, in plan order: an in-order selection of the items, each with the action, as many as carry it |
| Models.PlanCountsDisjoint | app/core/models.py:910-932 | the per-action counts are disjoint and sum to the number of items |
| Models.TotalBytesNonNegative | app/core/models.py:926-932 | total bytes are non-negative, and zero when no item is a copy |
| Models.FilterMatchesProperties | app/core/models.py:998-1021 | the default filter admits exactly the visible entries; an extra exclusion never admits more; an admitted entry meets the include list and the size bounds |
| TextDiff.NormalizeLineProps | app/core/diff/text_diff.py:61-83 | with ignore_line_endings no trailing line break survives; the whitespace mode's shape holds; ignore_case leaves no ASCII upper case; all options off leave the line as is |
| TextDiff.NormalizeLineIdempotent | app/core/diff/text_diff.py:61-83 | normalising twice gives the same line as normalising once |
| TextDiff.BlankIff | app/core/diff/text_diff.py:662-675 | a line strips to nothing iff it is all whitespace |
| TextDiff.FilterBlankLines | app/core/diff/text_diff.py:662-675 | exactly the non-blank lines are kept in order, and mapping[k] is the original index of the k-th kept line |
| TextDiff.TokenizeConcat | app/core/diff/text_diff.py:834-842 | the tokens concatenate back to the text |
| TextDiff.TokenizeRuns | app/core/diff/text_diff.py:834-842 | tokens are non-empty, uniformly whitespace or not, and alternate, so each run is maximal |
| TextDiff.CreateEqualLines | app/core/diff/text_diff.py:677-693 | one UNCHANGED line per base line, numbered 1-based on both sides |
| TextDiff.CreateRemovedLines | app/core/diff/text_diff.py:695-710 | one REMOVED line per left line, numbered on the left only |
| TextDiff.CreateAddedLines | app/core/diff/text_diff.py:712-728 | one ADDED line per right line, numbered on the right only |
| TextDiff.BuilderSides | app/core/diff/text_diff.py:677-728 | each builder shows exactly its slice of the left lines, numbered in order, and counts the right numbers consecutively |
| TextDiff.CreateModifiedLines | app/core/diff/text_diff.py:730-787 | max(i2-i1, j2-j1) pairs; pair i has a left line numbered i1+i+1 iff i < i2-i1 and a right line numbered j1+i+1 iff i < j2-j1, with the types and contents the source assigns |
| TextDiff.ModifiedSides | app/core/diff/text_diff.py:730-787 | the modified pairs show exactly the left and right slices, numbered consecutively |
| TextDiff.IntralineSpansWithin | app/core/diff/text_diff.py:383-435 | over the threshold each side gets one whole-line 'changed' span; every span lies within its stripped line |
| TextDiff.CreateHunk | app/core/diff/text_diff.py:789-805 | the starts are made 1-based and the counts are the numbers of lines with a left or right number, never more than the line count |
| TextDiff.TypeCountsPartition | app/core/diff/text_diff.py:807-832 | the per-type counts partition the lines |
| TextDiff.StatisticsTally | app/core/diff/text_diff.py:807-832 | the statistics keep the totals, and unchanged + added + removed + twice the halved modified count (plus its remainder) + the rest is the line count |
| TextDiff.RunQuiet | app/core/diff/text_diff.py:168-292 | the loop's flags are consistent, and it stays without changes iff every opcode is equal |
| TextDiff.NoHunksIffAllEqual | app/core/diff/text_diff.py:168-292 | no hunk is produced iff every opcode is equal |
| TextDiff.AsWrittenHunksShifted | app/core/diff/text_diff.py:208-209 | every hunk as written shows its lines exactly once its starts are moved back over its leading context |
| TextDiff.HunkStartIgnoresContext | app/core/diff/text_diff.py:234-235 | on ["a","b"] against ["a","c"] the hunk as written is -2,2 +2,2, which does not show its lines, while the corrected hunk is -1,2 +1,2 |
| TextDiff.FinalHunksExact | app/core/diff/text_diff.py:253-254 | with starts that count the leading context, every hunk shows exactly its left and right line ranges |
| TextDiff.BuildDiff | app/core/diff/text_diff.py:168-273 | the loop produces the as-written run's lines, pairs and hunks |
| TextDiff.EqualBranch | app/core/diff/text_diff.py:169-201 | an equal opcode adds its lines as context to the open hunk, closes the hunk when the run is longer than twice the context, and otherwise keeps its last context lines for the next hunk |
| TextDiff.ChangeBranch | app/core/diff/text_diff.py:203-267 | a change opcode opens a hunk if none is open, with the buffered context in front, then adds its changed lines to the diff, the hunk and the pairs |
| TextDiff.GetOpcodes | app/core/diff/text_diff.py:437-456 | the opcodes cover both inputs; Myers and Minimal use the matcher; Patience assembles a longest chain of common unique lines; Histogram without anchor lines falls back to the matcher, and with anchor lines assembles a longest chain of the histogram candidates |
| TextDiff.Compare | app/core/diff/text_diff.py:120-292 | the result shows every left line and numbers the right side in order; every hunk shows its lines once shifted back over its context; is_identical iff there is no hunk, and then the normalised sides agree; the statistics are tallied from the lines |
| TextDiffAnchors.FindLis | app/core/diff/text_diff.py:559-598 | the indices are increasing, their values strictly increase, and no increasing subsequence is longer |
| TextDiffAnchors.SortPiles | app/core/diff/text_diff.py:569-588 | the piles stay sorted and bounded, and every element links to a predecessor one shorter |
| TextDiffAnchors.WalkBack | app/core/diff/text_diff.py:589-598 | the walk back yields as many indices as piles, strictly decreasing in position and value |
| TextDiffAnchors.BuildOpcodesFromAnchors | app/core/diff/text_diff.py:600-660 | the loop computes the anchor opcode list |
| TextDiffAnchors.AnchorOpcodesValid | app/core/diff/text_diff.py:600-660 | for anchors increasing on both sides, the opcodes are gap-free and cover both inputs |
| TextDiffAnchors.AnchorsEmitted | app/core/diff/text_diff.py:600-660 | every anchor appears as a length-1 'equal' opcode |
| TextDiffAnchors.UniqueIndices | app/core/diff/text_diff.py:466-478 | the dictionary maps each line to its index when it occurs once, and marks repeated lines |
| TextDiffAnchors.CollectCommon | app/core/diff/text_diff.py:480-487 | the common lines are exactly those unique on both sides, in left order |
| TextDiffAnchors.GuardedLis | app/core/diff/text_diff.py:559-598 | the result is a longest increasing subsequence, including for empty input |
| TextDiffAnchors.LongestPick | app/core/diff/text_diff.py:489-495 | picking the anchors at a longest increasing run of right indices gives a longest chain |
| TextDiffAnchors.PatienceAnchors | app/core/diff/text_diff.py:458-495 | the anchors are valid and form a longest chain of the common unique lines |
| TextDiffAnchors.PatienceDiff | app/core/diff/text_diff.py:458-503 | the opcodes cover both inputs and are assembled around a longest chain of common unique lines |
| TextDiffAnchors.HistogramCandidatesProps | app/core/diff/text_diff.py:520-545 | the candidates are anchor lines in left order, and every first occurrence of an anchor line is among them |
| TextDiffAnchors.CollectHistogramAnchors | app/core/diff/text_diff.py:520-545 | the loop collects exactly the histogram candidates |
| TextDiffAnchors.HistogramAnchors | app/core/diff/text_diff.py:505-550 | the anchors are valid and form a longest chain of the candidates |
| TextDiffAnchors.HistogramDiff | app/core/diff/text_diff.py:505-557 | the opcodes cover both inputs; without anchor lines they are the matcher's; otherwise they are assembled around a longest chain of candidates |
| BinaryDiff.Diffs | app/core/diff/binary_diff.py:339-365 | the differences number at most the span and lie within [offset, offset + span) |
| BinaryDiff.DiffsExact | app/core/diff/binary_diff.py:339-365 | each difference carries the two bytes at its offset (None past an end); offsets increase; an offset is listed iff its bytes differ, with 0 against a missing byte skipped when trailing nulls are ignored |
| BinaryDiff.NoDiffsIffEqual | app/core/diff/binary_diff.py:231-265 | no differences iff the two byte strings are equal |
| BinaryDiff.CompareChunks | app/core/diff/binary_diff.py:339-365 | the loop lists the differences of the two chunks, all within [offset, offset + max length) |
| BinaryDiff.CollectDifferences | app/core/diff/binary_diff.py:240-252 | the loop keeps the first differences up to the cap (at least one), in order |
| BinaryDiff.CompareBytes | app/core/diff/binary_diff.py:231-265 | ZeroDivisionError iff there are differences and align_to is 0; otherwise the differences are the capped prefix, truncated iff the cap is reached, identical iff the data are equal, sizes recorded, and chunks built from the differences |
| BinaryDiff.GroupsPartition | app/core/diff/binary_diff.py:421-481 | grouping keeps every difference exactly once in order, keeps each group's neighbours close and separates the groups |
| BinaryDiff.BuildChunksFromDifferences | app/core/diff/binary_diff.py:421-481 | ZeroDivisionError iff there are differences and align_to is 0; otherwise the loop builds one chunk per group |
| BinaryDiff.ChunksCoverDifferences | app/core/diff/binary_diff.py:421-481 | the chunks' absolute difference offsets are exactly the differences' offsets, in order |
| BinaryDiff.ChunksAligned | app/core/diff/binary_diff.py:367-481 | every chunk starts at a non-negative multiple of align_to and its relative offsets are non-negative |
| BinaryDiff.RelOffsetsIff | app/core/diff/binary_diff.py:400-404 | a chunk's relative offsets are exactly the in-range differences shifted by the chunk start |
| BinaryDiff.DisplayRange | app/core/diff/binary_diff.py:380-398 | with differences the displayed range starts on a multiple of align_to |
| BinaryDiff.CreateDiffChunkProps | app/core/diff/binary_diff.py:367-419 | ZeroDivisionError iff there are differences and align_to is 0; a chunk is ADDED iff the left slice is empty, REMOVED iff only the right is, and lists exactly the in-range offsets |
| BinaryDiff.HexOffsetRoundTrip | app/core/diff/binary_diff.py:291 | the offset column is at least 8 hex digits, exactly 8 below 2^32, and reads back as the offset |
| BinaryDiff.HexColumnShortLineWider | app/core/diff/binary_diff.py:283-291 | a 4-byte last line has a 50-character hex column where a full line has 48, so the ASCII columns do not line up |
| BinaryDiff.FixedColumnWidth | app/core/diff/binary_diff.py:283-291 | the corrected hex column has the same width for every line length |
| BinaryDiff.FixedAsciiAligned | app/core/diff/binary_diff.py:283-291 | in the corrected dump, lines with equally wide offsets put " \| " and the ASCII column at the same place |
| BinaryDiff.FixedColumnAgrees | app/core/diff/binary_diff.py:283-291 | on full lines the corrected column is the column as written |
| BinaryDiff.DumpLineShape | app/core/diff/binary_diff.py:275-304 | a dump line shows its offset, its bytes as hex, and its ASCII column |
| BinaryDiff.LayoutCount | app/core/diff/binary_diff.py:267-306 | the dump has ceil(len / bytes_per_line) lines |
| BinaryDiff.HexDump | app/core/diff/binary_diff.py:267-306 | bytes_per_line 0 raises; a negative value yields no lines; otherwise the lines render the layout as written |
| BinaryDiff.HexDumpLines | app/core/diff/binary_diff.py:267-306 | there are ceil(len / bytes_per_line) lines, line k showing offset + k*bytes_per_line and its slice, printable bytes as characters and others as '.' |
| BinaryDiff.HexLineShape | app/core/diff/binary_diff.py:483-514 | a formatted line is offset, hex column, " \| ", then the ASCII column |
| BinaryDiff.FormatHexLine | app/core/diff/binary_diff.py:483-514 | the loop builds that line |
| BinaryPatch.LERoundTrip | app/core/diff/binary_diff.py:613-673 | a value below 256^w written in w little-endian bytes reads back unchanged |
| BinaryPatch.Serialized | app/core/diff/binary_diff.py:613-638 | serialising succeeds iff every field fits its width (else struct.error), and the output starts with BPATCH01 |
| BinaryPatch.SerializePatch | app/core/diff/binary_diff.py:613-638 | the loop writes the serialisation |
| BinaryPatch.Deserialized | app/core/diff/binary_diff.py:640-673 | data not starting with BPATCH01 is rejected as an invalid format; a success has a full header and as many entries as the header counts |
| BinaryPatch.DeserializePatch | app/core/diff/binary_diff.py:640-673 | the loop reads that result |
| BinaryPatch.SerializeRoundTrip | app/core/diff/binary_diff.py:613-673 | deserialising a serialised patch whose entries record exactly their original bytes and fit their widths gives the patch back |
| BinaryPatch.DeserializedFrom | app/core/diff/binary_diff.py:640-673 | bytes with the magic, the header fields and decodable entries deserialise to that patch |
| BinaryPatch.ApplyEntry | app/core/diff/binary_diff.py:596-604 | an entry fails iff the original bytes at its offset differ, and otherwise changes the length by new minus original bytes |
| BinaryPatch.Applied | app/core/diff/binary_diff.py:584-611 | a bad magic is an invalid format; a wrong original size is reported; a success has the recorded new size |
| BinaryPatch.ApplyPatch | app/core/diff/binary_diff.py:584-611 | the method applies the entries in reverse order with all three checks |
| BinaryPatch.PatchDifferences | app/core/diff/binary_diff.py:544-548 | the patch uses all differences when they stay under the default cap |
| BinaryPatch.CreatePatch | app/core/diff/binary_diff.py:534-582 | the method builds the corrected patch over every difference, whose entries record exactly the original bytes they carry |
| BinaryPatch.AllDiffsListed | app/core/diff/binary_diff.py:544-560 | the differences list every differing offset below the longer length |
| BinaryPatch.CreateApplyRoundTrip | app/core/diff/binary_diff.py:533-611 | applying the corrected patch to the original gives the modified data, for any sizes under 2^64 and differences under the cap |
| BinaryPatch.CappedPatchLosesDifferences | app/core/diff/binary_diff.py:533-611 | for data of equal length with more than 1000 differences, the patch as written applies without error but gives the modified bytes only up to the 1001st difference and the original bytes from there, which is not the modified data |
| BinaryPatch.CreateAllApplyRoundTrip | app/core/diff/binary_diff.py:533-611 | the patch over every difference can be written when the sizes fit 64 bits and at most 65535 bytes differ; whenever it is written, applying it gives the modified data; under the cap it is the patch create_patch writes |
| BinaryPatch.CreateApplyRoundTripAsWritten | app/core/diff/binary_diff.py:533-611 | when the data do not grow, the patch as written equals the corrected one, so the round trip the doc comment promises holds |
| BinaryPatch.GrowthPatch | app/core/diff/binary_diff.py:560 | growing [] to [1] as written records an original length of 1 with no original bytes |
| BinaryPatch.GrowthPatchRejected | app/core/diff/binary_diff.py:631-634 | that patch is accepted by the writer but applying it fails with an original-bytes mismatch |
| FolderSync.ModifiedSyncItem | app/core/folder/sync.py:350-422 | the item keeps the path and never deletes; one-way modes copy in their direction |
| FolderSync.SyncItemFor | app/core/folder/sync.py:286-348 | IDENTICAL gives no item; deletes occur only with sync_deletions; LEFT_TO_RIGHT never copies to or deletes on the left, and RIGHT_TO_LEFT the mirror |
| FolderSync.NewFilesCopied | app/core/folder/sync.py:298-329 | with sync_new_files, one-sided files copy towards the other side when the direction allows it, and otherwise are deleted or skipped |
| FolderSync.BidirectionalModified | app/core/folder/sync.py:383-422 | a missing timestamp skips; skip_conflicts gives CONFLICT; otherwise a strictly newer left copies right and anything else copies left |
| FolderSync.OneWayModified | app/core/folder/sync.py:350-382 | a one-way modified file copies in the direction, from and to the joined root paths |
| FolderSync.FallThroughSkip | app/core/folder/sync.py:340-348 | TYPE_MISMATCH, ERROR, and MODIFIED with sync_modified_files off are skipped |
| FolderSync.CreatePlan | app/core/folder/sync.py:93-122 | the plan's items are those of the preorder walk, with the direction and the two roots |
| FolderSync.PlanItemsMembers | app/core/folder/sync.py:93-122 | an item is planned iff some non-root entry yields it and its action is not SKIP |
| FolderSync.PlanActions | app/core/folder/sync.py:93-122 | no planned item is SKIP or the root; deletes only with sync_deletions; one-way plans respect their direction; at most one item per node |
| FolderSync.FindConflicts | app/core/folder/sync.py:249-284 | the loop computes the conflict list of the walk |
| FolderSync.ConflictsSound | app/core/folder/sync.py:249-284 | outside BIDIRECTIONAL there are no conflicts, and each reported conflict comes from one entry |
| FolderSync.ConflictsComplete | app/core/folder/sync.py:249-284 | every MODIFIED entry with both metadata is reported in BIDIRECTIONAL mode |
| FolderSync.Execute | app/core/folder/sync.py:124-224 | the result tallies the handled items; success iff none failed and the run was not cancelled |
| FolderSync.TallyCounts | app/core/folder/sync.py:157-224 | copied + deleted + skipped + failed = handled items, one error per failure; preview counts everything skipped and copies nothing |
| FolderSync.TallyCopies | app/core/folder/sync.py:157-224 | copies and deletes never exceed the planned copy and delete items |
| FolderSync.ExecuteSuccess | app/core/folder/sync.py:157-224 | a preview run succeeds iff it was not cancelled |
| FolderComparer.ComparisonPaths | app/core/folder/comparer.py:217-233 | the paths are the sorted union, matched by lower-cased key with the left spelling under ignore_case |
| FolderComparer.Classify | app/core/folder/comparer.py:248-292 | only two same-type non-directory entries reach content comparison |
| FolderComparer.ClassifyTable | app/core/folder/comparer.py:248-292 | missing left gives RIGHT_ONLY, missing right LEFT_ONLY, different types TYPE_MISMATCH, and two directories IDENTICAL |
| FolderComparer.ClassifySymmetric | app/core/folder/comparer.py:248-292 | swapping the sides swaps LEFT_ONLY and RIGHT_ONLY and keeps the other statuses |
| FolderComparer.CompareSingleFile | app/core/folder/comparer.py:386-481 | the result fails iff the content oracle is reached and fails; otherwise it keeps the path and metadata and is IDENTICAL or MODIFIED |
| FolderComparer.LadderRungs | app/core/folder/comparer.py:397-481 | quick compare with different sizes gives MODIFIED by size; equal sizes and mtimes without content comparison give IDENTICAL by timestamp; large files compare size and mtime; otherwise sizes or content decide |
| FolderComparer.IdenticalSameSize | app/core/folder/comparer.py:386-481 | when equal content implies equal size, an IDENTICAL file has equal sizes |
| FolderComparer.CompareFiles | app/core/folder/comparer.py:332-384 | the sequential loop gives each file job its result |
| FolderComparer.TwoPhasesAgree | app/core/folder/comparer.py:248-330 | classifying first and comparing the file jobs later gives the same results as one pass |
| FolderComparer.CompareScans | app/core/folder/comparer.py:205-330 | the paths are as specified; the result carries the roots and no error; every path's result sits in the tree |
| FolderComparer.CalculateStatistics | app/core/folder/comparer.py:645-676 | the loop tallies every result |
| FolderComparer.TallySums | app/core/folder/comparer.py:645-676 | files + directories = results, and the status counters plus the uncounted TYPE_MISMATCH results sum to the results |
| FolderComparer.OnlyMismatchesLookIdentical | app/core/folder/comparer.py:645-676 | a comparison whose results are all TYPE_MISMATCH reports itself identical |
| FolderComparer.QuickStatusTable | app/core/folder/comparer.py:829-846 | 'identical' iff both sides have the file with equal sizes and mtimes less than 2 s apart; 'modified' iff both have it otherwise; one-sided files are left_only or right_only |
| FolderComparer.QuickStatusSymmetric | app/core/folder/comparer.py:829-846 | swapping the sides swaps left_only and right_only and keeps the rest |
| FolderComparer.QuickCompare | app/core/folder/comparer.py:799-846 | every file on either side gets its quick status, and no other key appears |
| FolderComparer.QuickStatuses | app/core/folder/comparer.py:829-846 | the loop gives each path of either side its quick status |
| FolderCompareTree.ParentPath | app/core/folder/comparer.py:598-633 | the parent of a non-empty path is a shorter prefix |
| FolderCompareTree.EnsureParentNodes | app/core/folder/comparer.py:598-633 | the table stays well formed, contains the path, and grows only by the path's missing ancestors |
| FolderCompareTree.BuildTree | app/core/folder/comparer.py:556-596 | every result is placed under its parent path; missing ancestors are created as IDENTICAL directories; the root holds the root result |
| FolderCompareTree.SortTree | app/core/folder/comparer.py:635-643 | sorting keeps every node and every child list's owner |
| FolderCompareTree.SortTreeOk | app/core/folder/comparer.py:635-643 | sorting keeps the table well formed |
| FolderCompareTree.TreeCovers | app/core/folder/comparer.py:556-596 | every node of the table is reached by the walk from the root |
| FolderCompareTree.SortedTree | app/core/folder/comparer.py:635-643 | after sorting every child list puts directories first, then orders by lower-cased name |
| Scanner.ShouldInclude | app/core/folder/scanner.py:59-89 | the method computes the include rule |
| Scanner.HiddenDropped | app/core/folder/scanner.py:59-68 | dot-names are dropped unless include_hidden |
| Scanner.IncludesSpareDirectories | app/core/folder/scanner.py:75-87 | include patterns never decide for directories, and whatever is included as a file is included as a directory |
| Scanner.ScanResult.GetMetadata | app/core/folder/scanner.py:117-119 | the metadata is found iff the path was scanned, and files give their own metadata |
| Scanner.PatternToRegex | app/core/folder/scanner.py:185-240 | the loop builds the translated regex |
| Scanner.RegexShape | app/core/folder/scanner.py:231-240 | the regex starts with '^' when anchored and '(?:^\|/)' otherwise, and always ends with '(?:/.*)?$' |
| Scanner.TranslateLiteral | app/core/folder/scanner.py:185-229 | a run of ordinary characters translates to itself |
| Scanner.TranslateAppend | app/core/folder/scanner.py:185-229 | translation of a pattern without '*' or '[' distributes over concatenation |
| Scanner.CompiledOfProps | app/core/folder/scanner.py:151-183 | empty, blank and '#' patterns compile to nothing; a leading '!' makes the pattern negative; a trailing '/' makes it directory-only |
| Scanner.NegatedDirExample | app/core/folder/scanner.py:151-183 | "!/x/" compiles to a negative, anchored, directory-only pattern for "x" |
| Scanner.SpacedHashExample | app/core/folder/scanner.py:151-183 | " #x" is not a comment: it compiles to a positive pattern for "#x" once stripped |
| Scanner.DirOnlyIgnoredForFiles | app/core/folder/scanner.py:242-273 | directory-only patterns never affect a file |
| Scanner.NegativeWins | app/core/folder/scanner.py:242-273 | a matching applicable negative pattern forces "not excluded" |
| Scanner.PatternMatcher.constructor | app/core/folder/scanner.py:144-149 | the matcher holds the compiled positive and negative patterns in order |
| Scanner.PatternMatcher.CompilePattern | app/core/folder/scanner.py:151-183 | compiling appends the pattern's contribution to its list |
| Scanner.PatternMatcher.Matches | app/core/folder/scanner.py:242-273 | the answer is the exclusion rule applied to the path with separators normalised and one leading '/' dropped |
| Scanner.OnlyNegationsExcludeNothing | app/core/folder/scanner.py:242-273 | without positive patterns nothing is excluded |
| Scanner.InsertFinds | app/core/folder/scanner.py:726-762 | after an insertion the path is found with the new node, and every proper prefix has a node |
| Scanner.AddedFinds | app/core/folder/scanner.py:726-777 | after adding a path, looking it up gives the node with the given metadata, and every proper prefix is found |
| Scanner.LookupMissing | app/core/folder/scanner.py:764-777 | a path with an absent component is not found |
| Scanner.LookupRoot | app/core/folder/scanner.py:764-777 | the empty path is the root |
| Scanner.DirectoryTree.constructor | app/core/folder/scanner.py:694-724 | the root is a directory named after the root path; the nodes are `BuiltTree`: `_add_node` applied to every scanned directory in sorted order, then to every file in sorted order |
| Scanner.DirectoryTree.AddAll | app/core/folder/scanner.py:718-724 | one loop of `_build_tree`: the nodes become the old ones with each path added in order; the root is kept |
| Scanner.WithNodeKeeps | app/core/folder/scanner.py:726-762 | adding a path keeps every path already found, with its metadata, unless the added path's address is on that path's walk |
| Scanner.TreeFindsScanned | app/core/folder/scanner.py:705-777 | after the build, `get_node(p)` finds every scanned path, with the metadata `get_metadata(p)` gives (a file wins over a directory at the same path), for paths as the walk writes them, unless a file is a proper prefix of p |
| Scanner.DirectoryTree.AddNode | app/core/folder/scanner.py:726-762 | the nodes become those with the path added; the root is kept |
| Scanner.DirectoryTree.GetNode | app/core/folder/scanner.py:764-777 | the method looks the path up component by component |
| FileIO.SplitLines | app/services/file_io.py:554-579 | no split line is empty |
| FileIO.SplitLinesPreserveEndings | app/services/file_io.py:554-579 | the loop computes the split specification |
| FileIO.SplitLinesConcat | app/services/file_io.py:554-579 | the lines concatenate back to the content |
| FileIO.SplitLinesShape | app/services/file_io.py:560-577 | every line but the last ends in one terminator and holds no earlier one, and "\r\n" is never split |
| FileIO.SplitCounts | app/services/file_io.py:534-579 | the counts of "\r\n", "\n" and "\r" in the content equal the numbers of lines with each ending |
| FileIO.DetectLineEndingOfLines | app/services/file_io.py:534-552 | NONE iff no terminator; CRLF, LF or CR iff all are of that kind; MIXED otherwise |
| FileIO.WriteJoinEnds | app/services/file_io.py:327-332 | the written text is the join followed by at most one separator, and it ends with the separator |
| FileIO.WriteThenSplit | app/services/file_io.py:327-332 | writing lines without terminators and splitting again gives each line with the separator |
| FileIO.WriteThenDetect | app/services/file_io.py:327-332 | text written with a CRLF, LF or CR separator is detected as that ending |
| FileIO.DetectUniform | app/services/file_io.py:534-552 | content whose lines all end alike is detected as that ending |
| FileIO.ReadEncoding | app/services/file_io.py:234-244 | a UTF-8, UTF-16-LE or UTF-16-BE byte-order mark forces that encoding and sets bom, iff one is present |
| FileIO.IsBinaryChunk | app/services/file_io.py:489-503 | the loop computes the binary-chunk test |
| FileIO.RatioTest | app/services/file_io.py:499-503 | the "more than 30%" ratio is the integer test 10·n > 3·len |
| FileIO.OnlyHeadMatters | app/services/file_io.py:481-503 | only the first block of bytes decides whether a file looks binary |
| FileIO.TextChunkBinaryOnlyBySignature | app/services/file_io.py:77-88 | a chunk without control bytes is binary iff it starts with a listed signature |
| Settings.ThemeByName | app/services/settings.py:22-33 | the member with that name, or proof that none has it |
| Settings.FromStringSpec | app/services/settings.py:22-33 | with ASCII case mapping, from_string gives the member whose value is the lower-cased input, else SYSTEM, and never fails; under that mapping the lookup by name adds nothing |
| Settings.FromStringInverts | app/services/settings.py:22-33 | parsing a theme's value or its name gives the theme back |
| Settings.GetEnumProps | app/services/settings.py:270-276 | a string becomes a member of the class, the first member for an unknown name; other values pass through |
| Settings.GetEnumOfName | app/services/settings.py:252-276 | an enum written by name reads back as itself |
| Settings.FromDict | app/services/settings.py:268-347 | a successful read has every section's fields; a non-dict fails with AttributeError |
| Settings.Load | app/services/settings.py:168-181 | the loaded settings are well shaped; a missing or unreadable file gives the defaults; a readable one gives what _from_dict reads, else the defaults |
| Settings.RoundTrip | app/services/settings.py:252-347 | reading back what _to_dict wrote restores every field, except that the unread colours return to their defaults |
| Settings.LoadedDarkColoursAreDefaults | app/services/settings.py:310-330 | the dark colour fields are never read and always load as defaults |
| Settings.EmptyUITheme | app/services/settings.py:73 | a dict without ui.theme loads as SYSTEM, whereas a fresh UISettings has LIGHT |
| Settings.TrimmedProps | app/services/settings.py:227-250 | after adding, the path is first and appears once, the others keep their order, and the list is within the limit |
| Settings.NonPositiveLimit | app/services/settings.py:240-246 | a zero limit empties the list and a negative one drops entries from the end, as Python slicing does |
| Settings.SettingsManager.AddRecentPath | app/services/settings.py:227-250 | only the chosen side's list changes, and it becomes the trimmed list with the path in front |
| Search.CurrentMatch | app/ui/widgets/search_widget.py:119-122 | a match iff 0 ≤ current_index < count, and then the match at that index |
| Search.NextIndex | app/ui/widgets/search_widget.py:124-132 | -1 with no matches; current+1 inside the list; past the end 0 when wrapping and the last index otherwise |
| Search.PrevIndex | app/ui/widgets/search_widget.py:134-142 | -1 with no matches; current-1 inside the list; before the start the last index when wrapping and 0 otherwise |
| Search.WrapIsCyclic | app/ui/widgets/search_widget.py:124-142 | with wrap, stepping is addition and subtraction modulo the count |
| Search.NextPrevInverse | app/ui/widgets/search_widget.py:124-142 | with wrap, a step back undoes a step forward and conversely |
| Search.NoWrapStaysInRange | app/ui/widgets/search_widget.py:124-142 | without wrap, both steps stay within the matches |
| Search.SearchHistory.Add | app/ui/widgets/search_widget.py:155-170 | an empty term changes nothing; otherwise the term moves to the front and the list is cut to the maximum |
| Search.HistoryAddProps | app/ui/widgets/search_widget.py:155-170 | the term is first, the list holds at most 20 terms, the others keep their order, and a duplicate-free history stays duplicate-free with the term once |
| Search.SearchEngine.Search | app/ui/widgets/search_widget.py:863-906 | an empty term gives the empty result; otherwise the matches are kept and the index is the first match at or after the start, 0 if none is, and -1 without matches |
| Search.SearchEngine.FindNext | app/ui/widgets/search_widget.py:985-1004 | the first match starting after the position, else the first match when wrapping, else None |
| Search.SearchEngine.FindPrev | app/ui/widgets/search_widget.py:1006-1025 | the last match ending before the position, else the last match when wrapping, else None |
| Search.IsWholeWord | app/ui/widgets/search_widget.py:1211-1226 | true iff neither the character before nor the one after the span is a word character |
| Search.FindFromSpec | app/ui/widgets/search_widget.py:1160-1165 | the search finds the first occurrence at or after the start, or none |
| Search.HighlightsAreOccurrences | app/ui/widgets/search_widget.py:1151-1185 | every highlight is an occurrence of the term, whole-word when asked, with the current-match format exactly at the current match |
| Search.HighlightsDisjoint | app/ui/widgets/search_widget.py:1151-1185 | the highlights do not overlap |
| Search.HighlightsFirst | app/ui/widgets/search_widget.py:1151-1185 | a highlight is added iff the term occurs after the start, and the first one is at the first occurrence |
| Search.BlockHighlights | app/ui/widgets/search_widget.py:1151-1185 | a block's highlights are disjoint occurrences of the term |
| Search.ScanBlock | app/ui/widgets/search_widget.py:1151-1185 | the loop computes those highlights |
| Search.MatchHighlighter.HighlightText | app/ui/widgets/search_widget.py:1151-1185 | the highlights use the lower-cased text and term unless the search is case-sensitive |
| DiffOverview.ChangedInProps | app/ui/widgets/diff_overview.py:44-48 | the marks are increasing indices, one per non-UNCHANGED pair, with its type |
| DiffOverview.ByteMark | app/ui/widgets/diff_overview.py:50-62 | a difference is marked at its offset as MODIFIED, ADDED or REMOVED by its kind |
| DiffOverview.CollectChanged | app/ui/widgets/diff_overview.py:44-48 | the loop collects the changed pairs |
| DiffOverview.CollectBytes | app/ui/widgets/diff_overview.py:50-62 | the loop marks each difference |
| DiffOverview.GroupProps | app/ui/widgets/diff_overview.py:75-92 | the hunks expand back to the marks, their counts sum to the marks, they are non-empty and maximal, and ordered when the marks increase |
| DiffOverview.GroupRuns | app/ui/widgets/diff_overview.py:75-92 | the loop groups the marks into runs |
| DiffOverview.TextHunks | app/ui/widgets/diff_overview.py:44-92 | for a text result the hunks are the maximal same-type runs of changed pairs, ordered and non-overlapping, counting every changed pair |
| DiffOverview.NoResultEmpty | app/ui/widgets/diff_overview.py:36-41 | no result means no hunks and a total of 0 |
| DiffOverview.BinaryHunks | app/ui/widgets/diff_overview.py:50-92 | for a binary result the total is at least 1 for non-negative sizes, and the hunks group the differences' marks |
| DiffOverview.DiffOverviewBar.SetDiffResult | app/ui/widgets/diff_overview.py:29-94 | the bar takes the total and hunks of the result and keeps its viewport |
| DiffOverview.DiffOverviewBar.SetViewport | app/ui/widgets/diff_overview.py:96-101 | a repaint is asked iff the start or the count changes |
| DiffTextEdit.ShownLines | app/ui/widgets/diff_text_edit.py:394-413 | a missing side is an EMPTY line with no numbers and no text; otherwise its type, numbers and text without the line ending; joined text splits back into one line per pair |
| DiffTextEdit.ScanPairs | app/ui/widgets/diff_text_edit.py:394-413 | the loop gives each pair's type and numbers, keeps intraline ranges exactly where the side has them, and collects the texts |
| DiffTextEdit.DiffTextView.SetLinePairs | app/ui/widgets/diff_text_edit.py:375-419 | one line per pair from the chosen side; `setPlainText` clears the selection, while the found matches and the current index are kept |
| DiffTextEdit.DiffTextView.FindText | app/ui/widgets/diff_text_edit.py:567-618 | an empty search clears the matches; otherwise the matches are kept and the first is selected |
| DiffTextEdit.DiffTextView.FindNext | app/ui/widgets/diff_text_edit.py:620-629 | false without matches; otherwise the index moves forward modulo the count and selects that match |
| DiffTextEdit.DiffTextView.FindPrevious | app/ui/widgets/diff_text_edit.py:631-640 | false without matches; otherwise the index moves back modulo the count and selects that match |
| DiffTextEdit.StepLineProps | app/ui/widgets/diff_text_edit.py:905-943 | removed and context lines take the left counter and advance it, added and context lines the right; headers reload both counters; '---', '+++' and headers get no numbers |
| DiffTextEdit.CounterSpan | app/ui/widgets/diff_text_edit.py:905-943 | between headers the counters advance by the numbered lines on each side |
| DiffTextEdit.HunkNumbering | app/ui/widgets/diff_text_edit.py:905-943 | inside a hunk `@@ -a +b @@`, a line after m left-numbered lines is numbered a+m on the left, and likewise b+m on the right |
| DiffTextEdit.HeaderNumbers | app/ui/widgets/diff_text_edit.py:905-919 | a header written as difflib writes it reloads the counters with its two start numbers |
| DiffTextEdit.HunksInProps | app/ui/widgets/diff_text_edit.py:905-919 | the hunk positions are exactly the header lines, increasing |
| DiffTextEdit.NextHunkNearest | app/ui/widgets/diff_text_edit.py:951-960 | the next-hunk target is the nearest header below the cursor |
| DiffTextEdit.PreviousHunkNearest | app/ui/widgets/diff_text_edit.py:962-971 | the previous-hunk target is the nearest header above the cursor |
| DiffTextEdit.NumberLines | app/ui/widgets/diff_text_edit.py:905-943 | the loop numbers every line by the counter specification and collects the headers |
| DiffTextEdit.UnifiedDiffView.SetUnifiedDiff | app/ui/widgets/diff_text_edit.py:894-949 | the view takes the numbering and header positions, and the cursor returns to the first line |
| DiffTextEdit.UnifiedDiffView.NextHunk | app/ui/widgets/diff_text_edit.py:951-960 | moves iff a header lies below the cursor, to the first one; otherwise nothing changes |
| DiffTextEdit.UnifiedDiffView.PreviousHunk | app/ui/widgets/diff_text_edit.py:962-971 | moves iff a header lies above the cursor, to the last one; otherwise nothing changes |

## Left out

- Qt presentation: painting, layouts, signals, dialogs, colours, syntax highlighting and all widget files other than the pure logic modelled above. They draw state and do not compute it.
- Concurrency: the workers, the thread pool, the search workers and the parallel scan and compare. Comparisons are modelled sequentially, and cancellation is an input (`FolderSync.Execute`'s `cancelAt`).
- File-system and library I/O: walking and `lstat`, reading, writing, copying and deleting files, hashing (hashing.py), document text extraction and chardet. Metadata, content equality, copy outcomes and stored settings are inputs.
- `BinaryDiffEngine.compare`, `quick_compare` and `hex_dump_comparison`: file reading and side-by-side formatting around `compare_bytes` and `hex_dump`, which are modelled.
- `compare_files`, `unified_diff` and `context_diff`: file reading and difflib formatting around `compare`. The error branch of `compare_files` also builds its result with wrong arguments.
- `SettingsManager.save`, `reset` and the observers: file writing and callbacks. `load` is modelled with the stored data as an input.
- `difflib.SequenceMatcher`: an opcode oracle (`Matcher`). The model assumes only that its opcodes are gap-free and cover both inputs. Myers and Minimal diffs are exactly the oracle's opcodes.
- `re` and `fnmatch`: the regex search and `fnmatch` are predicate parameters. The pattern translation and the decision logic around them are modelled.
- Floating point: similarity ratios (`similarity_score`, `similarity_ratio`, the content similarity in comparer.py), image_diff.py and progress percentages. Suggestion confidences are integer tenths (0.8 is 8). The binary-chunk ratio is proved equal to an integer test (`FileIO.RatioTest`).
- `Diff3Merge` (three_way.py:692-808): the loop can stop advancing on a mid-file insertion, so it need not terminate. A terminating model would change its behaviour.
- `has_conflict_markers` (conflict_resolver.py:133-136): it passes `re.MULTILINE` as the start position, so its result depends on the regex engine's handling of that offset.
- `_create_cancelled_result` (comparer.py:697-719): it is called with a keyword it does not accept, so the cancelled path raises.
- `DirectoryTree` parent links: nodes are kept in a map keyed by path. A node's parent is its key without the last component, so the back reference is not stored.
- `FolderCompareNode` trees are built as a path-keyed table (`FolderCompareTree.NodeTable`) and read back as nested values. Aliasing between node objects is not modelled.
- `TextDiff.NormalizeLine`, `Models.FileMetadata.Extension`, `ConflictResolver` and the search: `Lower` folds only ASCII letters; Python's `str.lower` folds all of Unicode.
- `BinaryPatch.ApplyEntry`: the error is the message kind "Original bytes mismatch" without the offset that the source appends; the other exceptions likewise keep their kind only.
- `TextDiffAnchors.PatienceDiff`, `TextDiffAnchors.HistogramDiff`: these promise anchors forming some longest chain. The particular chain `_find_lis` returns among equally long ones is not fixed by the contract. `FindLis` itself is proved to return a longest increasing subsequence.
- `ThreeWayEngine.Merge`, `ThreeWayEngine.ResolveConflict`: the as-written conflicts keep no resolved lines; the corrected variant is used only in "Findings".
- `BinaryPatch.CreatePatch`: it writes the corrected `original_length`, because the value as written breaks the patch when the file grows, and it lists every difference, because the default cap of 1000 breaks the patch for data with more (see "Findings").
- `Models.MergeConflict.IsResolved`, `Models.MergeConflict.GetPreview`, `Models.FolderCompareResult.IsIdentical`: these are predicates without lemmas of their own. Their meaning is stated by `ResolutionCounts`, `PreviewShape`, `PickIsPreview` and `OnlyMismatchesLookIdentical`.
- `Models.DiffHunk.Header`: the header text is modelled. Only its parsing back is proved (`DiffTextEdit.HeaderNumbers`).
- `Settings.SettingsManager.AddRecentPath`: it requires the stored list to be a list, whereas Python would raise on another value. `Settings.RoundTrip` requires well-typed settings.
- `FileIO.LineSeparator`, `FileIO.WriteJoin`: these are plain definitions, and their meaning is proved through `WriteThenSplit` and `WriteThenDetect`.
- `FileIO`: only the decision on the first block of bytes is modelled; decoding to text is not.
- `ParseFromProps`: it states where each conflict starts and ends, their order and labels. Which lines go to left, base and right is stated by `ConflictResolver.ScanBlockSeparated`, `ConflictResolver.ScanBlockDiff3` and `ConflictResolver.ScanBlockTwoWay` for the block layouts the engine writes, and by `ConflictResolver.ScanPlain` and `ConflictResolver.ScanBlockKeepsBody` for any body. Bodies with repeated or out-of-order separators are not given a closed form.
- `FromStringSpec`, `Settings.FromString`: `lower()` and `upper()` map ASCII letters only. Python's Unicode mapping upper-cases "lıght" (dotless ı) to "LIGHT", so `from_string` returns LIGHT where the model returns SYSTEM, and the lookup by name can then find a member the lookup by value missed.
- `IsWholeWord`, `Search.IsWordChar`: a word character is an ASCII letter or digit or '_', where the source uses `str.isalnum`, which also accepts letters and digits outside ASCII. With "é" next to a match, the source rejects it as a whole word and the model accepts it.
- `constructor` (`Scanner.PatternMatcher.constructor`), `Scanner.PatternMatcher.CompilePattern`: `re.compile` raises `re.error` on a translated pattern that is no valid regular expression, for example "[", which becomes the unclosed class `[](?:/.*)?$`. The model stores every translated pattern, since what `re` accepts belongs to the regex engine, which is a parameter here.
- `FolderSync.JoinPath`, `Scanner.ChildAddr`: joining is string concatenation with '/', so a root of "/" gives "//a" where `pathlib` gives "/a".
- `FolderComparer`: modification times are integer nanoseconds, where the source compares float seconds from `stat`. The 2-second window is the same, but float rounding near its edge is not modelled.

## Findings

| source | as written | input that shows it | evidently intended | confidence | as-written member | corrected member |
|---|---|---|---|---|---|---|
| app/core/diff/text_diff.py:208-209 | a hunk starts at the first changed line, although the leading context lines were already added to it | ["a","b"] against ["a","c"] with 3 context lines gives `-2,2 +2,2` | the start counts the leading context: `-1,2 +1,2` | high; not executed | TextDiff.HunkStartIgnoresContext | TextDiff.FinalHunksExact |
| app/core/diff/binary_diff.py:283-291 | a short last line pads the hex column to `bytes_per_line + 1` cells and adds the spacer only at byte 7 | 20 bytes at 16 per line: the second line's hex column is 50 characters against 48 | every hex column has one width, so the ASCII columns line up | high; not executed | BinaryDiff.HexColumnShortLineWider | BinaryDiff.FixedAsciiAligned |
| app/core/diff/binary_diff.py:560 | when the file grows, an entry records an original length longer than the original bytes it carries | create_patch([], [1]) then apply_patch gives "Original bytes mismatch" | the entry records the original bytes it carries, and the patch applies | high; not executed | BinaryPatch.GrowthPatchRejected | BinaryPatch.CreateApplyRoundTrip |
| app/core/diff/binary_diff.py:544 | create_patch lists differences through compare_bytes with its default cap of 1000, and apply_patch accepts the patch | 1001 zero bytes against 1001 bytes of 1: the patch applies and gives 1000 ones followed by a zero | every difference is in the patch, and applying it gives the modified data | high; not executed | BinaryPatch.CappedPatchLosesDifferences | BinaryPatch.CreateAllApplyRoundTrip |
| app/core/merge/three_way.py:504-543 | an auto-resolved conflict gets a resolution but no resolved_lines | FAVOR_LEFT on a conflict with left ["l\n"]: the merge shows "l\n", and a later rebuild shows the marker block | the chosen lines are stored with the resolution | medium; not executed | ThreeWayEngine.AutoResolutionLostOnRebuild | ThreeWayEngine.RebuildOfRecordedMergeResult |
| app/core/merge/three_way.py:657 | a resolution whose lines are empty is rebuilt as the marker block | USE_LEFT on a conflict whose left side is empty (a deletion) | a resolved conflict contributes its lines, even when there are none | medium; not executed | ThreeWayEngine.EmptyResolutionRebuiltAsMarkers | ThreeWayEngine.RebuildAgreesWithMerge |
