/**
 * The binary-diff engine: byte differences of two byte strings, their
 * grouping into display chunks, and the hex dump. Bytes are naturals below
 * 256; a byte missing on one side is `None`.
 */
module BinaryDiff {
  import opened Wrappers
  import opened TextUtil
  import opened Models

  /** `BinaryCompareOptions`. */
  datatype BinaryCompareOptions = BinaryCompareOptions(
    chunkSize: int,
    maxDifferences: int,
    contextBytes: int,
    alignTo: int,
    ignoreTrailingNulls: bool)

  const DefaultBinaryOptions := BinaryCompareOptions(4096, 1000, 16, 16, false)

  /** `data[i] if i < len(data) else None`. */
  function At(data: seq<Byte>, i: nat): (r: Option<Byte>)
    ensures r.Some? <==> i < |data|
  {
    if i < |data| then Some(data[i]) else None
  }

  /** The `ByteDifference` properties of this engine: a missing left byte is an addition, a missing right byte a deletion. */
  predicate IsAddition(d: ByteDifference) { d.leftByte.None? }
  predicate IsDeletion(d: ByteDifference) { d.rightByte.None? }
  predicate IsModification(d: ByteDifference) { d.leftByte.Some? && d.rightByte.Some? }

  /** A zero byte facing a missing byte, which `ignore_trailing_nulls` skips. */
  predicate NullAgainstMissing(l: Option<Byte>, r: Option<Byte>)
  {
    (l == Some(0) && r.None?) || (r == Some(0) && l.None?)
  }

  /** Position `i` is reported: the bytes differ and the pair is not a skipped null pair. */
  predicate Reported(left: seq<Byte>, right: seq<Byte>, skipNulls: bool, i: nat)
  {
    At(left, i) != At(right, i) && !(skipNulls && NullAgainstMissing(At(left, i), At(right, i)))
  }

  /** The difference at position `i`, if it is reported. */
  function DiffAt(left: seq<Byte>, right: seq<Byte>, base: int, skipNulls: bool, i: nat): (r: seq<ByteDifference>)
    ensures |r| <= 1
    ensures |r| == 1 <==> Reported(left, right, skipNulls, i)
    ensures |r| == 1 ==> r[0] == ByteDifference(base + i, At(left, i), At(right, i))
  {
    if Reported(left, right, skipNulls, i) then [ByteDifference(base + i, At(left, i), At(right, i))] else []
  }

  /**
   * The differences at the first `n` positions, in increasing order, each at
   * `base` plus its position.
   */
  function Diffs(left: seq<Byte>, right: seq<Byte>, base: int, skipNulls: bool, n: nat): (r: seq<ByteDifference>)
    ensures |r| <= n
    ensures forall k :: 0 <= k < |r| ==> base <= r[k].offset < base + n
  {
    if n == 0 then []
    else Diffs(left, right, base, skipNulls, n - 1) + DiffAt(left, right, base, skipNulls, n - 1)
  }

  /** Each listed difference lies at or after `base`, carries the two bytes at its position and is reported there. */
  predicate CarriesBytes(left: seq<Byte>, right: seq<Byte>, base: int, skipNulls: bool, r: seq<ByteDifference>)
  {
    forall k :: 0 <= k < |r| ==>
      base <= r[k].offset
      && r[k].leftByte == At(left, r[k].offset - base) && r[k].rightByte == At(right, r[k].offset - base)
      && Reported(left, right, skipNulls, r[k].offset - base)
  }

  predicate Increasing(r: seq<ByteDifference>)
  {
    forall a, b :: 0 <= a < b < |r| ==> r[a].offset < r[b].offset
  }

  /** Some listed difference lies at `offset`. */
  predicate Lists(r: seq<ByteDifference>, offset: int)
  {
    exists k :: 0 <= k < |r| && r[k].offset == offset
  }

  lemma {:induction false} DiffsCarry(left: seq<Byte>, right: seq<Byte>, base: int, skipNulls: bool, n: nat)
    ensures CarriesBytes(left, right, base, skipNulls, Diffs(left, right, base, skipNulls, n))
  {
    if n > 0 {
      DiffsCarry(left, right, base, skipNulls, n - 1);
      var p := Diffs(left, right, base, skipNulls, n - 1);
      var t := DiffAt(left, right, base, skipNulls, n - 1);
      var r := Diffs(left, right, base, skipNulls, n);
      assert r == p + t;
      forall k | 0 <= k < |r|
        ensures base <= r[k].offset
        ensures r[k].leftByte == At(left, r[k].offset - base) && r[k].rightByte == At(right, r[k].offset - base)
        ensures Reported(left, right, skipNulls, r[k].offset - base)
      {
        if k < |p| {
          assert r[k] == p[k];
        } else {
          assert r[k] == t[0];
        }
      }
    }
  }

  lemma {:induction false} DiffsIncreasing(left: seq<Byte>, right: seq<Byte>, base: int, skipNulls: bool, n: nat)
    ensures Increasing(Diffs(left, right, base, skipNulls, n))
  {
    if n > 0 {
      DiffsIncreasing(left, right, base, skipNulls, n - 1);
      var p := Diffs(left, right, base, skipNulls, n - 1);
      var t := DiffAt(left, right, base, skipNulls, n - 1);
      var r := Diffs(left, right, base, skipNulls, n);
      assert r == p + t;
      forall a, b | 0 <= a < b < |r|
        ensures r[a].offset < r[b].offset
      {
        assert r[a] == p[a];
        if b < |p| {
          assert r[b] == p[b];
        } else {
          assert r[b] == t[0];
        }
      }
    }
  }

  lemma {:induction false} DiffsComplete(left: seq<Byte>, right: seq<Byte>, base: int, skipNulls: bool, n: nat, i: nat)
    requires i < n && Reported(left, right, skipNulls, i)
    ensures Lists(Diffs(left, right, base, skipNulls, n), base + i)
  {
    var p := Diffs(left, right, base, skipNulls, n - 1);
    var t := DiffAt(left, right, base, skipNulls, n - 1);
    var r := Diffs(left, right, base, skipNulls, n);
    assert r == p + t;
    if i < n - 1 {
      DiffsComplete(left, right, base, skipNulls, n - 1, i);
      var k :| 0 <= k < |p| && p[k].offset == base + i;
      assert r[k] == p[k];
    } else {
      assert r[|p|] == t[0];
    }
  }

  /**
   * The differences are exactly the reported positions among the first `n`,
   * in increasing order, each with its two bytes.
   */
  lemma DiffsExact(left: seq<Byte>, right: seq<Byte>, base: int, skipNulls: bool, n: nat)
    ensures CarriesBytes(left, right, base, skipNulls, Diffs(left, right, base, skipNulls, n))
    ensures Increasing(Diffs(left, right, base, skipNulls, n))
    ensures forall i: nat :: i < n ==>
      (Reported(left, right, skipNulls, i) <==> Lists(Diffs(left, right, base, skipNulls, n), base + i))
  {
    DiffsCarry(left, right, base, skipNulls, n);
    DiffsIncreasing(left, right, base, skipNulls, n);
    forall i: nat | i < n
      ensures Reported(left, right, skipNulls, i) <==> Lists(Diffs(left, right, base, skipNulls, n), base + i)
    {
      if Reported(left, right, skipNulls, i) {
        DiffsComplete(left, right, base, skipNulls, n, i);
      }
    }
  }

  /** The differences of a shorter range are a prefix of those of a longer one. */
  lemma {:induction false} DiffsPrefix(left: seq<Byte>, right: seq<Byte>, base: int, skipNulls: bool, i: nat, n: nat)
    requires i <= n
    ensures |Diffs(left, right, base, skipNulls, i)| <= |Diffs(left, right, base, skipNulls, n)|
    ensures Diffs(left, right, base, skipNulls, n)[..|Diffs(left, right, base, skipNulls, i)|]
      == Diffs(left, right, base, skipNulls, i)
  {
    if i < n {
      DiffsPrefix(left, right, base, skipNulls, i, n - 1);
      var q := Diffs(left, right, base, skipNulls, n - 1);
      PrefixSlice(q, DiffAt(left, right, base, skipNulls, n - 1), 0, |Diffs(left, right, base, skipNulls, i)|);
    }
  }

  lemma {:induction false} SameBytesNoDiffs(data: seq<Byte>, base: int, skipNulls: bool, n: nat)
    ensures Diffs(data, data, base, skipNulls, n) == []
  {
    if n > 0 {
      SameBytesNoDiffs(data, base, skipNulls, n - 1);
    }
  }

  /** Two different byte strings differ at some position, a missing byte counting as `None`. */
  lemma Mismatch(left: seq<Byte>, right: seq<Byte>) returns (i: nat)
    requires left != right
    ensures i < Max(|left|, |right|) && At(left, i) != At(right, i)
  {
    if |left| != |right| {
      i := Min(|left|, |right|);
    } else {
      if forall k :: 0 <= k < |left| ==> left[k] == right[k] {
        assert false;
      }
      i :| 0 <= i < |left| && left[i] != right[i];
    }
  }

  /** With no skipped pairs, two byte strings have no difference exactly when they are equal. */
  lemma NoDiffsIffEqual(left: seq<Byte>, right: seq<Byte>)
    ensures Diffs(left, right, 0, false, Max(|left|, |right|)) == [] <==> left == right
  {
    var n := Max(|left|, |right|);
    var r := Diffs(left, right, 0, false, n);
    if left != right {
      var i := Mismatch(left, right);
      assert Reported(left, right, false, i);
      DiffsComplete(left, right, 0, false, n, i);
    } else {
      SameBytesNoDiffs(left, 0, false, n);
    }
  }

  // ---------------------------------------------------------------- compare_bytes and _compare_chunks

  /**
   * `_compare_chunks`: the differences of two chunks at absolute positions
   * from `offset` on, the null pairs skipped when trailing nulls are ignored.
   */
  method CompareChunks(opts: BinaryCompareOptions, left: seq<Byte>, right: seq<Byte>, offset: int)
    returns (differences: seq<ByteDifference>)
    ensures differences == Diffs(left, right, offset, opts.ignoreTrailingNulls, Max(|left|, |right|))
    ensures forall k :: 0 <= k < |differences| ==>
      offset <= differences[k].offset < offset + Max(|left|, |right|)
  {
    differences := [];
    var maxLen := Max(|left|, |right|);
    var i := 0;
    while i < maxLen
      invariant 0 <= i <= maxLen
      invariant differences == Diffs(left, right, offset, opts.ignoreTrailingNulls, i)
    {
      var leftByte := if i < |left| then Some(left[i]) else None;
      var rightByte := if i < |right| then Some(right[i]) else None;
      DiffsNext(left, right, offset, opts.ignoreTrailingNulls, i);
      if leftByte != rightByte {
        if opts.ignoreTrailingNulls
          && ((leftByte == Some(0) && rightByte.None?) || (rightByte == Some(0) && leftByte.None?)) {
        } else {
          differences := differences + [ByteDifference(offset + i, leftByte, rightByte)];
        }
      }
      i := i + 1;
    }
  }

  lemma DiffsNext(left: seq<Byte>, right: seq<Byte>, base: int, skipNulls: bool, i: nat)
    ensures Reported(left, right, skipNulls, i) ==>
      Diffs(left, right, base, skipNulls, i + 1)
        == Diffs(left, right, base, skipNulls, i) + [ByteDifference(base + i, At(left, i), At(right, i))]
    ensures !Reported(left, right, skipNulls, i) ==>
      Diffs(left, right, base, skipNulls, i + 1) == Diffs(left, right, base, skipNulls, i)
  {
  }

  /**
   * The differences `compare_bytes` collects: scanning all positions, it stops
   * right after the difference that brings the count to `max_differences`.
   */
  method CollectDifferences(left: seq<Byte>, right: seq<Byte>, maxDifferences: int)
    returns (differences: seq<ByteDifference>)
    ensures var all := Diffs(left, right, 0, false, Max(|left|, |right|));
      |differences| == Min(|all|, Max(1, maxDifferences)) && differences == all[..|differences|]
  {
    differences := [];
    var maxLen := Max(|left|, |right|);
    ghost var all := Diffs(left, right, 0, false, maxLen);
    var i := 0;
    while i < maxLen
      invariant 0 <= i <= maxLen
      invariant differences == Diffs(left, right, 0, false, i)
      invariant |differences| < Max(1, maxDifferences)
    {
      var leftByte := if i < |left| then Some(left[i]) else None;
      var rightByte := if i < |right| then Some(right[i]) else None;
      DiffsNext(left, right, 0, false, i);
      if leftByte != rightByte {
        differences := differences + [ByteDifference(i, leftByte, rightByte)];
        if |differences| >= maxDifferences {
          CollectStop(left, right, maxDifferences, i + 1, differences);
          return;
        }
      }
      i := i + 1;
    }
    CollectStop(left, right, maxDifferences, maxLen, differences);
  }

  /** Stopping after position `i - 1` with these differences gives the result `compare_bytes` promises. */
  lemma CollectStop(left: seq<Byte>, right: seq<Byte>, maxDifferences: int, i: nat, differences: seq<ByteDifference>)
    requires i <= Max(|left|, |right|) && differences == Diffs(left, right, 0, false, i)
    requires |differences| <= Max(1, maxDifferences)
    requires |differences| >= maxDifferences || i == Max(|left|, |right|)
    ensures var all := Diffs(left, right, 0, false, Max(|left|, |right|));
      |differences| == Min(|all|, Max(1, maxDifferences)) && differences == all[..|differences|]
  {
    DiffsPrefix(left, right, 0, false, i, Max(|left|, |right|));
  }

  /**
   * `compare_bytes`: the differences in increasing order, cut off at
   * `max_differences`; identical exactly when there is none, truncated
   * exactly when the cap was reached, and the display chunks built from them.
   * With differences and a zero `align_to` the chunk builder divides by zero.
   */
  method CompareBytes(opts: BinaryCompareOptions, leftData: seq<Byte>, rightData: seq<Byte>)
    returns (result: Result<BinaryDiffResult>)
    ensures var all := Diffs(leftData, rightData, 0, false, Max(|leftData|, |rightData|));
      var n := Min(|all|, Max(1, opts.maxDifferences));
      (result.Err? <==> all != [] && opts.alignTo == 0)
      && (result.Ok? ==>
            var r := result.value;
            r.differences == all[..n] && r.totalDifferences == n
            && r.leftSize == |leftData| && r.rightSize == |rightData|
            && (r.isIdentical <==> leftData == rightData)
            && (r.truncated <==> n >= opts.maxDifferences)
            && r.chunks == ChunksOf(opts, leftData, rightData, r.differences))
  {
    var differences := CollectDifferences(leftData, rightData, opts.maxDifferences);
    NoDiffsIffEqual(leftData, rightData);
    var chunks := BuildChunksFromDifferences(opts, leftData, rightData, differences);
    if chunks.Err? {
      return Err(chunks.error);
    }
    result := Ok(BinaryDiffResult("<bytes>", "<bytes>", |leftData|, |rightData|,
      |differences| == 0, differences, chunks.value, |differences|,
      |differences| >= opts.maxDifferences, None, None));
  }

  // ---------------------------------------------------------------- grouping

  function Last<T>(s: seq<T>): T
    requires s != []
  {
    s[|s| - 1]
  }

  function Flatten<T>(gs: seq<seq<T>>): (r: seq<T>)
  {
    if gs == [] then [] else Flatten(gs[..|gs| - 1]) + gs[|gs| - 1]
  }

  lemma {:induction false} FlattenHolds<T>(gs: seq<seq<T>>, j: int)
    requires 0 <= j < |gs|
    ensures forall x :: x in gs[j] ==> x in Flatten(gs)
  {
    if j < |gs| - 1 {
      FlattenHolds(gs[..|gs| - 1], j);
      assert gs[..|gs| - 1][j] == gs[j];
    }
  }

  /**
   * The runs of differences in order: a difference joins the current run when
   * it lies at most `gap` after the run's last difference.
   */
  function Groups(ds: seq<ByteDifference>, gap: int): (gs: seq<seq<ByteDifference>>)
    ensures gs == [] <==> ds == []
    ensures forall k :: 0 <= k < |gs| ==> gs[k] != []
  {
    if ds == [] then []
    else
      var gs := Groups(ds[..|ds| - 1], gap);
      var d := ds[|ds| - 1];
      if gs == [] then [[d]]
      else if d.offset - Last(Last(gs)).offset <= gap then gs[..|gs| - 1] + [Last(gs) + [d]]
      else gs + [[d]]
  }

  /** A run whose consecutive offsets lie at most `gap` apart. */
  predicate Close(g: seq<ByteDifference>, gap: int)
  {
    forall k :: 0 <= k < |g| - 1 ==> g[k + 1].offset - g[k].offset <= gap
  }

  predicate AllClose(gs: seq<seq<ByteDifference>>, gap: int)
  {
    forall k :: 0 <= k < |gs| ==> Close(gs[k], gap)
  }

  /** Consecutive runs lie more than `gap` apart. */
  predicate Separated(gs: seq<seq<ByteDifference>>, gap: int)
  {
    forall k :: 0 <= k < |gs| - 1 && gs[k] != [] && gs[k + 1] != [] ==>
      gs[k + 1][0].offset - Last(gs[k]).offset > gap
  }

  /** The runs put every difference in exactly one run, in order. */
  lemma {:induction false} GroupsFlatten(ds: seq<ByteDifference>, gap: int)
    ensures Flatten(Groups(ds, gap)) == ds
  {
    if ds != [] {
      var p := ds[..|ds| - 1];
      GroupsFlatten(p, gap);
      GroupsFlattenStep(ds, gap);
    }
  }

  lemma GroupsFlattenStep(ds: seq<ByteDifference>, gap: int)
    requires ds != [] && Flatten(Groups(ds[..|ds| - 1], gap)) == ds[..|ds| - 1]
    ensures Flatten(Groups(ds, gap)) == ds
  {
    var p := ds[..|ds| - 1];
    var gs := Groups(p, gap);
    var d := ds[|ds| - 1];
    InitLast(ds);
    if gs == [] {
      FlattenSnoc(gs, [d]);
    } else {
      var init := gs[..|gs| - 1];
      assert gs == init + [Last(gs)];
      FlattenSnoc(init, Last(gs));
      if d.offset - Last(Last(gs)).offset <= gap {
        FlattenSnoc(init, Last(gs) + [d]);
      } else {
        FlattenSnoc(gs, [d]);
      }
    }
  }

  lemma FlattenSnoc<T>(gs: seq<seq<T>>, g: seq<T>)
    ensures Flatten(gs + [g]) == Flatten(gs) + g
  {
    assert (gs + [g])[..|gs|] == gs;
  }

  /** Each run is close. */
  lemma {:induction false} GroupsClose(ds: seq<ByteDifference>, gap: int)
    ensures AllClose(Groups(ds, gap), gap)
  {
    if ds != [] {
      var p := ds[..|ds| - 1];
      GroupsClose(p, gap);
      var gs := Groups(p, gap);
      var d := ds[|ds| - 1];
      if gs != [] && d.offset - Last(Last(gs)).offset <= gap {
        var init := gs[..|gs| - 1];
        var r: seq<seq<ByteDifference>> := init + [Last(gs) + [d]];
        assert Groups(ds, gap) == r;
        forall k | 0 <= k < |r|
          ensures Close(r[k], gap)
        {
          if k < |init| {
            assert r[k] == gs[k];
          } else {
            var g := Last(gs) + [d];
            assert Close(Last(gs), gap);
            forall m | 0 <= m < |g| - 1
              ensures g[m + 1].offset - g[m].offset <= gap
            {
              if m < |g| - 2 {
                assert g[m] == Last(gs)[m] && g[m + 1] == Last(gs)[m + 1];
              }
            }
          }
        }
      }
    }
  }

  /** Consecutive runs lie more than `gap` apart. */
  lemma {:induction false} GroupsSeparated(ds: seq<ByteDifference>, gap: int)
    ensures Separated(Groups(ds, gap), gap)
  {
    if ds != [] {
      var p := ds[..|ds| - 1];
      GroupsSeparated(p, gap);
      var gs := Groups(p, gap);
      var d := ds[|ds| - 1];
      if gs != [] {
        var init := gs[..|gs| - 1];
        if d.offset - Last(Last(gs)).offset <= gap {
          var r: seq<seq<ByteDifference>> := init + [Last(gs) + [d]];
          assert Groups(ds, gap) == r;
          forall k | 0 <= k < |r| - 1 && r[k] != [] && r[k + 1] != []
            ensures r[k + 1][0].offset - Last(r[k]).offset > gap
          {
            assert r[k] == gs[k];
            assert r[k + 1][0] == gs[k + 1][0];
          }
        } else {
          var r: seq<seq<ByteDifference>> := gs + [[d]];
          assert Groups(ds, gap) == r;
          forall k | 0 <= k < |r| - 1 && r[k] != [] && r[k + 1] != []
            ensures r[k + 1][0].offset - Last(r[k]).offset > gap
          {
            assert r[k] == gs[k];
            if k < |gs| - 1 {
              assert r[k + 1] == gs[k + 1];
            }
          }
        }
      }
    }
  }

  /**
   * The runs put every difference in exactly one run, in order; each run is
   * close, and consecutive runs lie more than `gap` apart.
   */
  lemma GroupsPartition(ds: seq<ByteDifference>, gap: int)
    ensures Flatten(Groups(ds, gap)) == ds
    ensures AllClose(Groups(ds, gap), gap) && Separated(Groups(ds, gap), gap)
  {
    GroupsFlatten(ds, gap);
    GroupsClose(ds, gap);
    GroupsSeparated(ds, gap);
  }

  // ---------------------------------------------------------------- chunks

  function MinOffset(ds: seq<ByteDifference>): (m: int)
    requires ds != []
    ensures forall k :: 0 <= k < |ds| ==> m <= ds[k].offset
    ensures exists k :: 0 <= k < |ds| && m == ds[k].offset
  {
    if |ds| == 1 then ds[0].offset else Min(MinOffset(ds[..|ds| - 1]), Last(ds).offset)
  }

  function MaxOffset(ds: seq<ByteDifference>): (m: int)
    requires ds != []
    ensures forall k :: 0 <= k < |ds| ==> ds[k].offset <= m
    ensures exists k :: 0 <= k < |ds| && m == ds[k].offset
  {
    if |ds| == 1 then ds[0].offset else Max(MaxOffset(ds[..|ds| - 1]), Last(ds).offset)
  }

  lemma MulMono(x: int, a: int)
    ensures x >= 1 && a > 0 ==> x * a >= a
    ensures x <= -1 && a > 0 ==> x * a <= -a
  {
  }

  lemma MultipleMod(q: int, a: int)
    ensures a > 0 ==> (q * a) % a == 0
    ensures a > 0 && q >= 0 ==> q * a >= 0
  {
    if a > 0 {
      var d, m := (q * a) / a, (q * a) % a;
      assert (q - d) * a == m;
      MulMono(q - d, a);
    }
  }

  /** `x // a * a`: `x` rounded down to a multiple of `a`. */
  function AlignDown(x: int, a: int): (r: int)
    requires a != 0
    ensures a > 0 ==> r <= x < r + a && r % a == 0
    ensures a > 0 && x >= 0 ==> r >= 0
  {
    var q := FloorDiv(x, a);
    MultipleMod(q, a);
    q * a
  }

  /**
   * Where a run's chunk starts: the lowest offset aligned down, less the
   * context, at least 0, aligned down again. With a positive alignment it is a
   * non-negative multiple of it, and with non-negative context and offset it
   * is at most the offset.
   */
  function ChunkStart(lo: int, a: int, contextBytes: int): (r: int)
    requires a != 0
    ensures a > 0 ==> r >= 0 && r % a == 0
    ensures a > 0 && contextBytes >= 0 && lo >= 0 ==> r <= lo
  {
    AlignDown(Max(0, AlignDown(lo, a) - contextBytes), a)
  }

  /** The chunk `_build_chunks_from_differences` makes for one run. */
  function GroupChunk(opts: BinaryCompareOptions, left: seq<Byte>, right: seq<Byte>, group: seq<ByteDifference>)
    : BinaryDiffChunk
    requires group != [] && opts.alignTo != 0
  {
    var a := opts.alignTo;
    var start := ChunkStart(MinOffset(group), a, opts.contextBytes);
    var end := (FloorDiv(MaxOffset(group), a) + 1) * a + opts.contextBytes;
    var leftBytes := if start < |left| then Slice(left, start, end) else [];
    var rightBytes := if start < |right| then Slice(right, start, end) else [];
    var diffType :=
      if forall k :: 0 <= k < |group| ==> IsAddition(group[k]) then BinaryDiffType.Added
      else if forall k :: 0 <= k < |group| ==> IsDeletion(group[k]) then BinaryDiffType.Removed
      else BinaryDiffType.Modified;
    BinaryDiffChunk(start, leftBytes, rightBytes, diffType,
      seq(|group|, k requires 0 <= k < |group| => group[k].offset - start))
  }

  predicate NonEmptyGroups(gs: seq<seq<ByteDifference>>)
  {
    forall k :: 0 <= k < |gs| ==> gs[k] != []
  }

  /** One chunk per run, in order. */
  function ChunkList(opts: BinaryCompareOptions, left: seq<Byte>, right: seq<Byte>, gs: seq<seq<ByteDifference>>)
    : (r: seq<BinaryDiffChunk>)
    requires opts.alignTo != 0 && NonEmptyGroups(gs)
    ensures |r| == |gs|
  {
    if gs == [] then []
    else ChunkList(opts, left, right, gs[..|gs| - 1]) + [GroupChunk(opts, left, right, gs[|gs| - 1])]
  }

  lemma {:induction false} ChunkListAt(opts: BinaryCompareOptions, left: seq<Byte>, right: seq<Byte>,
                                       gs: seq<seq<ByteDifference>>, j: int)
    requires opts.alignTo != 0 && NonEmptyGroups(gs) && 0 <= j < |gs|
    ensures ChunkList(opts, left, right, gs)[j] == GroupChunk(opts, left, right, gs[j])
  {
    if j < |gs| - 1 {
      ChunkListAt(opts, left, right, gs[..|gs| - 1], j);
    }
  }

  /** The chunks of all runs at most twice `align_to` apart. */
  function ChunksOf(opts: BinaryCompareOptions, left: seq<Byte>, right: seq<Byte>, ds: seq<ByteDifference>)
    : (r: seq<BinaryDiffChunk>)
    requires ds == [] || opts.alignTo != 0
  {
    if ds == [] then [] else ChunkList(opts, left, right, Groups(ds, opts.alignTo * 2))
  }

  /**
   * `_build_chunks_from_differences`: the differences are grouped into runs,
   * then one chunk is made per run; making the first chunk with a zero
   * `align_to` divides by zero.
   */
  method BuildChunksFromDifferences(opts: BinaryCompareOptions, leftData: seq<Byte>, rightData: seq<Byte>,
                                    differences: seq<ByteDifference>)
    returns (result: Result<seq<BinaryDiffChunk>>)
    ensures result.Err? <==> differences != [] && opts.alignTo == 0
    ensures result.Ok? ==> result.value == ChunksOf(opts, leftData, rightData, differences)
  {
    if differences == [] {
      return Ok([]);
    }
    var gap := opts.alignTo * 2;
    var groups: seq<seq<ByteDifference>> := [];
    var currentGroup: seq<ByteDifference> := [];
    for k := 0 to |differences|
      invariant GroupingSoFar(differences, gap, k, groups, currentGroup)
    {
      var diff := differences[k];
      if currentGroup == [] {
        GroupingFirst(differences, gap);
        currentGroup := [diff];
      } else if diff.offset - currentGroup[|currentGroup| - 1].offset <= gap {
        GroupingJoin(differences, gap, k, groups, currentGroup);
        currentGroup := currentGroup + [diff];
      } else {
        GroupingOpen(differences, gap, k, groups, currentGroup);
        groups := groups + [currentGroup];
        currentGroup := [diff];
      }
    }
    GroupingDone(differences, gap, groups, currentGroup);
    groups := groups + [currentGroup];
    if opts.alignTo == 0 {
      return Err("ZeroDivisionError");
    }
    var chunks := [];
    for g := 0 to |groups|
      invariant groups == Groups(differences, gap) && NonEmptyGroups(groups)
      invariant chunks == ChunkList(opts, leftData, rightData, groups[..g])
    {
      ChunkListNext(opts, leftData, rightData, groups, g);
      chunks := chunks + [GroupChunk(opts, leftData, rightData, groups[g])];
    }
    assert groups[..|groups|] == groups;
    result := Ok(chunks);
  }

  /**
   * The loop state of `_build_chunks_from_differences` after `k` differences:
   * the closed runs and the open one together are the runs of the prefix.
   */
  ghost predicate GroupingSoFar(ds: seq<ByteDifference>, gap: int, k: int,
                                groups: seq<seq<ByteDifference>>, cur: seq<ByteDifference>)
  {
    0 <= k <= |ds| &&
    if k == 0 then groups == [] && cur == []
    else cur != [] && groups + [cur] == Groups(ds[..k], gap)
  }

  lemma GroupingFirst(ds: seq<ByteDifference>, gap: int)
    requires ds != []
    ensures GroupingSoFar(ds, gap, 1, [], [ds[0]])
  {
    assert ds[..1][..0] == [];
  }

  lemma GroupingJoin(ds: seq<ByteDifference>, gap: int, k: int,
                     groups: seq<seq<ByteDifference>>, cur: seq<ByteDifference>)
    requires 0 < k < |ds| && GroupingSoFar(ds, gap, k, groups, cur)
    requires ds[k].offset - cur[|cur| - 1].offset <= gap
    ensures GroupingSoFar(ds, gap, k + 1, groups, cur + [ds[k]])
  {
    var gs := groups + [cur];
    assert ds[..k + 1][..k] == ds[..k];
    assert Last(gs) == cur && gs[..|gs| - 1] == groups;
  }

  lemma GroupingOpen(ds: seq<ByteDifference>, gap: int, k: int,
                     groups: seq<seq<ByteDifference>>, cur: seq<ByteDifference>)
    requires 0 < k < |ds| && GroupingSoFar(ds, gap, k, groups, cur)
    requires ds[k].offset - cur[|cur| - 1].offset > gap
    ensures GroupingSoFar(ds, gap, k + 1, groups + [cur], [ds[k]])
  {
    var gs := groups + [cur];
    assert ds[..k + 1][..k] == ds[..k];
    assert Last(gs) == cur;
  }

  lemma GroupingDone(ds: seq<ByteDifference>, gap: int,
                     groups: seq<seq<ByteDifference>>, cur: seq<ByteDifference>)
    requires ds != [] && GroupingSoFar(ds, gap, |ds|, groups, cur)
    ensures groups + [cur] == Groups(ds, gap)
  {
    assert ds[..|ds|] == ds;
  }

  lemma ChunkListNext(opts: BinaryCompareOptions, left: seq<Byte>, right: seq<Byte>,
                      gs: seq<seq<ByteDifference>>, g: int)
    requires opts.alignTo != 0 && NonEmptyGroups(gs) && 0 <= g < |gs|
    ensures ChunkList(opts, left, right, gs[..g + 1])
      == ChunkList(opts, left, right, gs[..g]) + [GroupChunk(opts, left, right, gs[g])]
  {
    assert gs[..g + 1][..g] == gs[..g];
  }

  /** The absolute offsets of a chunk's differences. */
  function Absolute(c: BinaryDiffChunk): (r: seq<int>)
    ensures |r| == |c.diffOffsets| && forall k :: 0 <= k < |r| ==> r[k] == c.offset + c.diffOffsets[k]
  {
    seq(|c.diffOffsets|, k requires 0 <= k < |c.diffOffsets| => c.offset + c.diffOffsets[k])
  }

  /** The absolute offsets of the chunks' differences, chunk by chunk. */
  function ChunkOffsets(cs: seq<BinaryDiffChunk>): seq<int>
  {
    if cs == [] then [] else ChunkOffsets(cs[..|cs| - 1]) + Absolute(cs[|cs| - 1])
  }

  lemma GroupChunkAbsolute(opts: BinaryCompareOptions, left: seq<Byte>, right: seq<Byte>, g: seq<ByteDifference>)
    requires g != [] && opts.alignTo != 0
    ensures Absolute(GroupChunk(opts, left, right, g)) == Offsets(g)
  {
    var c := GroupChunk(opts, left, right, g);
    assert |c.diffOffsets| == |g|;
    assert forall k :: 0 <= k < |g| ==> c.diffOffsets[k] == g[k].offset - c.offset;
  }

  function Offsets(ds: seq<ByteDifference>): (r: seq<int>)
    ensures |r| == |ds| && forall k :: 0 <= k < |ds| ==> r[k] == ds[k].offset
  {
    seq(|ds|, k requires 0 <= k < |ds| => ds[k].offset)
  }

  lemma ChunkOffsetsSnoc(cs: seq<BinaryDiffChunk>, c: BinaryDiffChunk)
    ensures ChunkOffsets(cs + [c]) == ChunkOffsets(cs) + Absolute(c)
  {
    assert (cs + [c])[..|cs|] == cs;
  }

  lemma OffsetsAppend(a: seq<ByteDifference>, b: seq<ByteDifference>)
    ensures Offsets(a + b) == Offsets(a) + Offsets(b)
  {
  }

  lemma {:induction false} ChunkOffsetsOfGroups(opts: BinaryCompareOptions, left: seq<Byte>, right: seq<Byte>,
                                                gs: seq<seq<ByteDifference>>)
    requires opts.alignTo != 0 && NonEmptyGroups(gs)
    ensures ChunkOffsets(ChunkList(opts, left, right, gs)) == Offsets(Flatten(gs))
  {
    if gs != [] {
      var init := gs[..|gs| - 1];
      ChunkOffsetsOfGroups(opts, left, right, init);
      var g := Last(gs);
      var c := GroupChunk(opts, left, right, g);
      assert ChunkList(opts, left, right, gs) == ChunkList(opts, left, right, init) + [c];
      ChunkOffsetsSnoc(ChunkList(opts, left, right, init), c);
      GroupChunkAbsolute(opts, left, right, g);
      assert Flatten(gs) == Flatten(init) + g;
      OffsetsAppend(Flatten(init), g);
    }
  }

  /**
   * Every difference lands in exactly one chunk, in order: the chunks'
   * absolute offsets, read in order, are the differences' offsets.
   */
  lemma ChunksCoverDifferences(opts: BinaryCompareOptions, left: seq<Byte>, right: seq<Byte>,
                               ds: seq<ByteDifference>)
    requires ds == [] || opts.alignTo != 0
    ensures ChunkOffsets(ChunksOf(opts, left, right, ds)) == Offsets(ds)
  {
    if ds != [] {
      GroupsPartition(ds, opts.alignTo * 2);
      ChunkOffsetsOfGroups(opts, left, right, Groups(ds, opts.alignTo * 2));
    } else {
      assert ChunksOf(opts, left, right, ds) == [];
    }
  }

  /**
   * With a positive `align_to`, non-negative context and differences at
   * non-negative offsets, each chunk starts at a non-negative multiple of
   * `align_to`, at or before each of its differences.
   */
  lemma ChunksAligned(opts: BinaryCompareOptions, left: seq<Byte>, right: seq<Byte>, ds: seq<ByteDifference>)
    requires opts.alignTo > 0 && opts.contextBytes >= 0 && forall d :: d in ds ==> d.offset >= 0
    ensures forall c :: c in ChunksOf(opts, left, right, ds) ==>
      c.offset >= 0 && c.offset % opts.alignTo == 0
      && forall k :: 0 <= k < |c.diffOffsets| ==> c.diffOffsets[k] >= 0
  {
    if ds != [] {
      var gs := Groups(ds, opts.alignTo * 2);
      var cs := ChunksOf(opts, left, right, ds);
      GroupsPartition(ds, opts.alignTo * 2);
      forall j | 0 <= j < |cs|
        ensures cs[j].offset >= 0 && cs[j].offset % opts.alignTo == 0
        ensures forall k :: 0 <= k < |cs[j].diffOffsets| ==> cs[j].diffOffsets[k] >= 0
      {
        ChunkListAt(opts, left, right, gs, j);
        FlattenHolds(gs, j);
        GroupChunkStart(opts, left, right, gs[j]);
      }
    }
  }

  lemma GroupChunkStart(opts: BinaryCompareOptions, left: seq<Byte>, right: seq<Byte>, group: seq<ByteDifference>)
    requires group != [] && opts.alignTo > 0 && opts.contextBytes >= 0
    requires forall d :: d in group ==> d.offset >= 0
    ensures GroupChunk(opts, left, right, group).offset >= 0
    ensures GroupChunk(opts, left, right, group).offset % opts.alignTo == 0
    ensures forall k :: 0 <= k < |group| ==> GroupChunk(opts, left, right, group).diffOffsets[k] >= 0
  {
    var start := ChunkStart(MinOffset(group), opts.alignTo, opts.contextBytes);
    assert GroupChunk(opts, left, right, group).offset == start;
    assert start <= MinOffset(group);
  }

  /** A run's chunk type: added when every difference lacks a left byte, removed when every one lacks a right byte. */
  lemma GroupChunkType(opts: BinaryCompareOptions, left: seq<Byte>, right: seq<Byte>, group: seq<ByteDifference>)
    requires group != [] && opts.alignTo != 0
    ensures var t := GroupChunk(opts, left, right, group).diffType;
      (t == BinaryDiffType.Added <==> forall k :: 0 <= k < |group| ==> IsAddition(group[k]))
      && (t == BinaryDiffType.Removed <==>
            (exists k :: 0 <= k < |group| && !IsAddition(group[k]))
            && forall k :: 0 <= k < |group| ==> IsDeletion(group[k]))
  {
  }

  // ---------------------------------------------------------------- _create_diff_chunk

  /** `[d.offset - start for d in differences if start <= d.offset < end]`. */
  function RelOffsets(ds: seq<ByteDifference>, start: int, end: int): (r: seq<int>)
    ensures forall x :: x in r ==> 0 <= x < end - start
  {
    if ds == [] then []
    else
      var d := ds[|ds| - 1];
      RelOffsets(ds[..|ds| - 1], start, end) + (if start <= d.offset < end then [d.offset - start] else [])
  }

  /** A relative offset is listed exactly when some difference lies in `[start, end)` at it. */
  lemma {:induction false} RelOffsetsIff(ds: seq<ByteDifference>, start: int, end: int, x: int)
    ensures x in RelOffsets(ds, start, end) <==>
      exists k :: 0 <= k < |ds| && start <= ds[k].offset < end && x == ds[k].offset - start
  {
    if ds != [] {
      var p := ds[..|ds| - 1];
      RelOffsetsIff(p, start, end, x);
      if exists k :: 0 <= k < |ds| && start <= ds[k].offset < end && x == ds[k].offset - start {
        var k :| 0 <= k < |ds| && start <= ds[k].offset < end && x == ds[k].offset - start;
        if k < |p| {
          assert p[k] == ds[k];
        }
      }
      if exists k :: 0 <= k < |p| && start <= p[k].offset < end && x == p[k].offset - start {
        var k :| 0 <= k < |p| && start <= p[k].offset < end && x == p[k].offset - start;
        assert ds[k] == p[k];
      }
    }
  }

  /** The display range `_create_diff_chunk` picks: aligned, widened by the context, kept inside the region. */
  function DisplayRange(opts: BinaryCompareOptions, offset: int, size: int, differences: seq<ByteDifference>)
    : (r: (int, int))
    requires differences == [] || opts.alignTo != 0
    ensures differences != [] && opts.alignTo > 0 ==> r.0 % opts.alignTo == 0
  {
    if differences == [] then (offset, offset + size)
    else
      var a := opts.alignTo;
      var start := Max(offset, AlignDown(MinOffset(differences), a) - opts.contextBytes);
      var end := Min(offset + size, (FloorDiv(MaxOffset(differences), a) + 1) * a + opts.contextBytes);
      (AlignDown(start, a), end)
  }

  /**
   * `_create_diff_chunk`: the display chunk for a region starting at `offset`;
   * with differences and a zero `align_to` the floor division raises.
   */
  function CreateDiffChunk(opts: BinaryCompareOptions, left: seq<Byte>, right: seq<Byte>, offset: int,
                           differences: seq<ByteDifference>): (c: Result<BinaryDiffChunk>)
  {
    if differences != [] && opts.alignTo == 0 then Err("ZeroDivisionError")
    else
      var diffType :=
        if left == [] then BinaryDiffType.Added
        else if right == [] then BinaryDiffType.Removed
        else BinaryDiffType.Modified;
      var range := DisplayRange(opts, offset, Max(|left|, |right|), differences);
      var relStart, relEnd := range.0 - offset, range.1 - offset;
      var leftBytes := if relStart < |left| then Slice(left, relStart, relEnd) else [];
      var rightBytes := if relStart < |right| then Slice(right, relStart, relEnd) else [];
      Ok(BinaryDiffChunk(range.0, leftBytes, rightBytes, diffType, RelOffsets(differences, range.0, range.1)))
  }

  /**
   * The chunk fails only for differences with a zero `align_to`. Otherwise it
   * is added when the left region is empty and removed when only the right
   * one is; it lists, relative to its start, exactly the differences inside
   * its display range; with differences and a positive `align_to` it starts
   * on a multiple of `align_to`.
   */
  lemma CreateDiffChunkProps(opts: BinaryCompareOptions, left: seq<Byte>, right: seq<Byte>, offset: int,
                             differences: seq<ByteDifference>, x: int)
    ensures CreateDiffChunk(opts, left, right, offset, differences).Err? <==> differences != [] && opts.alignTo == 0
    ensures CreateDiffChunk(opts, left, right, offset, differences).Ok? ==>
      var c := CreateDiffChunk(opts, left, right, offset, differences).value;
      (c.diffType == BinaryDiffType.Added <==> left == [])
      && (c.diffType == BinaryDiffType.Removed <==> left != [] && right == [])
      && (x in c.diffOffsets <==>
            exists k :: 0 <= k < |differences|
              && c.offset <= differences[k].offset < DisplayRange(opts, offset, Max(|left|, |right|), differences).1
              && x == differences[k].offset - c.offset)
      && (differences != [] && opts.alignTo > 0 ==> c.offset % opts.alignTo == 0)
  {
    if differences == [] || opts.alignTo != 0 {
      var range := DisplayRange(opts, offset, Max(|left|, |right|), differences);
      RelOffsetsIff(differences, range.0, range.1, x);
    }
  }

  // ---------------------------------------------------------------- hex formatting

  /** The upper-case hexadecimal digit of `v`. */
  function HexDigit(v: nat): (c: char)
    requires v < 16
    ensures IsHexDigit(c)
  {
    if v < 10 then ('0' as int + v) as char else ('A' as int + v - 10) as char
  }

  predicate IsHexDigit(c: char)
  {
    '0' <= c <= '9' || 'A' <= c <= 'F'
  }

  /** The value of an upper-case hexadecimal digit; the inverse of `HexDigit`. */
  function HexDigitValue(c: char): (v: nat)
    requires IsHexDigit(c)
    ensures v < 16 && HexDigit(v) == c
  {
    if '0' <= c <= '9' then c as int - '0' as int else c as int - 'A' as int + 10
  }

  lemma HexDigitInverse(v: nat)
    requires v < 16
    ensures HexDigitValue(HexDigit(v)) == v
  {
  }

  /** `f"{n:X}"` of a natural number: its upper-case hexadecimal digits, most significant first. */
  function HexDigits(n: nat): (r: string)
    ensures |r| > 0
    ensures forall i :: 0 <= i < |r| ==> IsHexDigit(r[i])
    decreases n
  {
    if n < 16 then [HexDigit(n)] else HexDigits(n / 16) + [HexDigit(n % 16)]
  }

  /** The value of a string of hexadecimal digits. */
  function HexValue(s: string): (n: nat)
    requires forall i :: 0 <= i < |s| ==> IsHexDigit(s[i])
  {
    if s == [] then 0
    else
      assert IsHexDigit(s[|s| - 1]);
      HexValue(s[..|s| - 1]) * 16 + HexDigitValue(s[|s| - 1])
  }

  lemma {:induction false} HexValueOfHexDigits(n: nat)
    ensures HexValue(HexDigits(n)) == n
    decreases n
  {
    HexDigitInverse(n % 16);
    if n >= 16 {
      var s := HexDigits(n);
      assert s[..|s| - 1] == HexDigits(n / 16);
      assert s[|s| - 1] == HexDigit(n % 16);
      HexValueOfHexDigits(n / 16);
    }
  }

  /** `s` left-padded with '0' to at least `width` characters. */
  function ZeroPad(s: string, width: int): (r: string)
    ensures |r| == Max(|s|, width)
    ensures r[|r| - |s|..] == s
    ensures forall i :: 0 <= i < |r| - |s| ==> r[i] == '0'
  {
    if |s| >= width then s else seq(width - |s|, i => '0') + s
  }

  lemma {:induction false} HexValueLeadingZeros(z: string, s: string)
    requires forall i :: 0 <= i < |z| ==> z[i] == '0'
    requires forall i :: 0 <= i < |s| ==> IsHexDigit(s[i])
    ensures forall i :: 0 <= i < |z + s| ==> IsHexDigit((z + s)[i])
    ensures HexValue(z + s) == HexValue(s)
    decreases |s|
  {
    if s == [] {
      assert z + s == z;
      HexValueZeros(z);
    } else {
      var t := s[..|s| - 1];
      HexValueLeadingZeros(z, t);
      assert (z + s)[..|z + s| - 1] == z + t;
    }
  }

  lemma {:induction false} HexValueZeros(z: string)
    requires forall i :: 0 <= i < |z| ==> z[i] == '0'
    ensures forall i :: 0 <= i < |z| ==> IsHexDigit(z[i])
    ensures HexValue(z) == 0
  {
    if z != [] {
      HexValueZeros(z[..|z| - 1]);
    }
  }

  /** `f"{n:08X}"`: eight or more upper-case hexadecimal digits, the sign counted in the width. */
  function HexOffset(n: int): (r: string)
  {
    if n >= 0 then ZeroPad(HexDigits(n), 8) else "-" + ZeroPad(HexDigits(-n), 7)
  }

  /**
   * An offset below 2^32 is written as exactly eight upper-case hexadecimal
   * digits, which read back as the offset; a larger one as more digits.
   */
  lemma HexOffsetRoundTrip(n: int)
    requires n >= 0
    ensures var r := HexOffset(n);
      |r| >= 8 && (forall i :: 0 <= i < |r| ==> IsHexDigit(r[i])) && HexValue(r) == n
      && (n < 0x1_0000_0000 ==> |r| == 8)
  {
    var s := HexDigits(n);
    var r := HexOffset(n);
    var z := r[..|r| - |s|];
    assert r == z + s;
    HexValueLeadingZeros(z, s);
    HexValueOfHexDigits(n);
    if n < 0x1_0000_0000 {
      Pow16Eight();
      HexDigitsShort(n, 8);
    }
  }

  lemma Pow16Eight()
    ensures Pow16(8) == 0x1_0000_0000
  {
    assert Pow16(2) == 0x100;
    assert Pow16(4) == 0x1_0000;
    assert Pow16(6) == 0x100_0000;
  }

  /** A number below 16^k has at most `k` hexadecimal digits. */
  lemma {:induction false} HexDigitsShort(n: nat, k: nat)
    ensures n < Pow16(k) ==> |HexDigits(n)| <= Max(k, 1)
    decreases k
  {
    if n >= 16 && k >= 1 {
      HexDigitsShort(n / 16, k - 1);
    }
  }

  function Pow16(k: nat): (r: nat)
    ensures r >= 1
  {
    if k == 0 then 1 else 16 * Pow16(k - 1)
  }

  /** `f"{b:02X}"`. */
  function Hex2(b: Byte): (r: string)
    ensures |r| == 2 && IsHexDigit(r[0]) && IsHexDigit(r[1])
    ensures HexDigitValue(r[0]) * 16 + HexDigitValue(r[1]) == b
  {
    HexDigitInverse(b / 16);
    HexDigitInverse(b % 16);
    [HexDigit(b / 16), HexDigit(b % 16)]
  }

  /** A byte as the dump's ASCII column shows it: printable bytes as themselves, the rest as '.'. */
  function AsciiChar(b: Byte): (c: char)
    ensures 32 <= b < 127 ==> c as int == b
    ensures !(32 <= b < 127) ==> c == '.'
  {
    if 32 <= b < 127 then b as char else '.'
  }

  function AsciiOf(data: seq<Byte>): (r: string)
    ensures |r| == |data| && forall k :: 0 <= k < |data| ==> r[k] == AsciiChar(data[k])
  {
    seq(|data|, k requires 0 <= k < |data| => AsciiChar(data[k]))
  }

  // ---------------------------------------------------------------- hex_dump

  /** The total length of the parts of a `join`. */
  function SumLen(parts: seq<string>): (n: nat)
  {
    if parts == [] then 0 else |parts[0]| + SumLen(parts[1..])
  }

  lemma SumLenCell(c: string)
    ensures SumLen([c]) == |c| && SumLen([c, ""]) == |c|
  {
    assert [c][1..] == [];
    assert [c, ""][1..] == [""];
    assert [""][1..] == [];
  }

  lemma {:induction false} SumLenAppend(a: seq<string>, b: seq<string>)
    ensures SumLen(a + b) == SumLen(a) + SumLen(b)
  {
    if a != [] {
      assert (a + b)[1..] == a[1..] + b;
      SumLenAppend(a[1..], b);
    } else {
      assert a + b == b;
    }
  }

  /** `" ".join(parts)` is as long as its parts plus one separator between each two. */
  lemma {:induction false} JoinLength(parts: seq<string>)
    requires parts != []
    ensures |Join(parts, " ")| == SumLen(parts) + |parts| - 1
  {
    if |parts| > 1 {
      JoinLength(parts[1..]);
    }
  }

  /** The hex cells `hex_dump` collects for a chunk: one per byte and an empty cell after the eighth. */
  function HexParts(chunk: seq<Byte>): (r: seq<string>)
    ensures |r| == |chunk| + (if |chunk| >= 8 then 1 else 0)
    ensures SumLen(r) == 2 * |chunk|
  {
    if chunk == [] then []
    else
      var p := HexParts(chunk[..|chunk| - 1]);
      var tail := if |chunk| - 1 == 7 then [Hex2(chunk[|chunk| - 1]), ""] else [Hex2(chunk[|chunk| - 1])];
      SumLenAppend(p, tail);
      SumLenCell(tail[0]);
      p + tail
  }

  /** The filler cells `"  "`. */
  function Blanks(n: nat): (r: seq<string>)
    ensures |r| == n && SumLen(r) == 2 * n
  {
    if n == 0 then []
    else
      SumLenAppend(Blanks(n - 1), ["  "]);
      Blanks(n - 1) + ["  "]
  }

  /** `parts` extended with filler cells to at least `n` cells. */
  function Padded(parts: seq<string>, n: int): (r: seq<string>)
    ensures |r| == Max(|parts|, n)
    ensures SumLen(r) == SumLen(parts) + 2 * (|r| - |parts|)
  {
    var r := parts + Blanks(if n > |parts| then n - |parts| else 0);
    SumLenAppend(parts, Blanks(if n > |parts| then n - |parts| else 0));
    r
  }

  /** The hex column of one `hex_dump` line as written. */
  function HexColumn(chunk: seq<Byte>, bytesPerLine: int): (r: string)
  {
    Join(Padded(HexParts(chunk), bytesPerLine + 1), " ")
  }

  /** One line of `hex_dump` as written: offset, hex column, `" | "` and the ASCII column. */
  function DumpLine(chunk: seq<Byte>, offset: int, bytesPerLine: int): (line: string)
  {
    Concat([HexOffset(offset), ": ", HexColumn(chunk, bytesPerLine), " | ", AsciiOf(chunk)])
  }

  /**
   * As written, a line with fewer than eight bytes gets no empty spacer cell
   * but is still padded to `bytes_per_line + 1` cells, so its hex column is two
   * characters wider than a full line's: with 16 bytes per line, a 20-byte dump
   * moves the ASCII column of its last line two places to the right.
   */
  lemma HexColumnShortLineWider()
    ensures |HexColumn(seq(16, k => 0), 16)| == 48
    ensures |HexColumn(seq(4, k => 0), 16)| == 50
    ensures |DumpLine(seq(4, k => 0), 16, 16)| - 4 != |DumpLine(seq(16, k => 0), 0, 16)| - 16
  {
    HexColumnLength(seq(16, k => 0), 16);
    HexColumnLength(seq(4, k => 0), 16);
    HexOffsetRoundTrip(0);
    HexOffsetRoundTrip(16);
    DumpLineShape(seq(4, k => 0), 16, 16);
    DumpLineShape(seq(16, k => 0), 0, 16);
  }

  lemma HexColumnLength(chunk: seq<Byte>, bytesPerLine: int)
    requires 0 < |chunk| <= bytesPerLine
    ensures var cells := |chunk| + (if |chunk| >= 8 then 1 else 0);
      |HexColumn(chunk, bytesPerLine)| == 2 * |chunk| + 3 * (bytesPerLine + 1 - cells) + cells - 1
  {
    JoinLength(Padded(HexParts(chunk), bytesPerLine + 1));
  }

  /** The `j`-th cell of a line with a fixed number of cells: the byte, or filler past the chunk. */
  function Cell(chunk: seq<Byte>, j: nat): (r: string)
    ensures |r| == 2
  {
    if j < |chunk| then Hex2(chunk[j]) else "  "
  }

  /** The first `n` cells of a line, with the empty spacer cell after the eighth. */
  function FixedParts(chunk: seq<Byte>, n: nat): (r: seq<string>)
    ensures |r| == n + (if n >= 8 then 1 else 0)
    ensures SumLen(r) == 2 * n
  {
    if n == 0 then []
    else
      var p := FixedParts(chunk, n - 1);
      var tail := if n - 1 == 7 then [Cell(chunk, n - 1), ""] else [Cell(chunk, n - 1)];
      SumLenAppend(p, tail);
      SumLenCell(tail[0]);
      p + tail
  }

  /** The hex column with one cell per position of the line, whatever the chunk holds. */
  function FixedColumn(chunk: seq<Byte>, bytesPerLine: nat): (r: string)
  {
    Join(Padded(FixedParts(chunk, bytesPerLine), bytesPerLine + 1), " ")
  }

  /** One `hex_dump` line with the hex column of constant width. */
  function DumpLineFixed(chunk: seq<Byte>, offset: int, bytesPerLine: nat): (line: string)
  {
    Concat([HexOffset(offset), ": ", FixedColumn(chunk, bytesPerLine), " | ", AsciiOf(chunk)])
  }

  lemma ConcatFive(a: string, b: string, c: string, d: string, e: string)
    ensures Concat([a, b, c, d, e]) == a + b + c + d + e
  {
    ConcatAppend([a, b], [c, d, e]);
    ConcatAppend([a], [b]);
    ConcatAppend([c], [d, e]);
    ConcatAppend([d], [e]);
    Concat1(a);
    Concat1(b);
    Concat1(c);
    Concat1(d);
    Concat1(e);
    assert [a, b, c, d, e] == [a, b] + [c, d, e];
    assert [a, b] == [a] + [b] && [c, d, e] == [c] + [d, e] && [d, e] == [d] + [e];
  }

  lemma Concat1(a: string)
    ensures Concat([a]) == a
  {
    assert [a][1..] == [];
  }

  /** The corrected hex column has the same width for every chunk. */
  lemma FixedColumnWidth(chunk: seq<Byte>, bytesPerLine: nat)
    requires bytesPerLine > 0
    ensures |FixedColumn(chunk, bytesPerLine)| == if bytesPerLine >= 8 then 3 * bytesPerLine else 3 * bytesPerLine + 2
  {
    JoinLength(Padded(FixedParts(chunk, bytesPerLine), bytesPerLine + 1));
  }

  lemma {:induction false} FixedPartsPrefix(chunk: seq<Byte>, n: nat)
    requires n <= |chunk|
    ensures FixedParts(chunk, n) == HexParts(chunk[..n])
  {
    if n > 0 {
      FixedPartsPrefix(chunk, n - 1);
      assert chunk[..n][..n - 1] == chunk[..n - 1];
    }
  }

  /**
   * With the corrected column, any two lines whose offsets are written with
   * the same number of digits (all offsets below 2^32) put `" | "` and the
   * ASCII column at the same place.
   */
  lemma FixedAsciiAligned(c1: seq<Byte>, o1: int, c2: seq<Byte>, o2: int, bytesPerLine: nat)
    requires bytesPerLine > 0 && |HexOffset(o1)| == |HexOffset(o2)|
    ensures var h := |HexOffset(o1)| + 2 + (if bytesPerLine >= 8 then 3 * bytesPerLine else 3 * bytesPerLine + 2);
      var l1, l2 := DumpLineFixed(c1, o1, bytesPerLine), DumpLineFixed(c2, o2, bytesPerLine);
      |l1| == h + 3 + |c1| && |l2| == h + 3 + |c2|
      && l1[h..h + 3] == " | " == l2[h..h + 3]
      && l1[h + 3..] == AsciiOf(c1) && l2[h + 3..] == AsciiOf(c2)
  {
    FixedColumnWidth(c1, bytesPerLine);
    FixedColumnWidth(c2, bytesPerLine);
    ConcatFive(HexOffset(o1), ": ", FixedColumn(c1, bytesPerLine), " | ", AsciiOf(c1));
    ConcatFive(HexOffset(o2), ": ", FixedColumn(c2, bytesPerLine), " | ", AsciiOf(c2));
  }

  /** On a full line, and on every line once the spacer cell is reached, the corrected column is the written one. */
  lemma FixedColumnAgrees(chunk: seq<Byte>, bytesPerLine: nat)
    requires |chunk| == bytesPerLine
    ensures FixedColumn(chunk, bytesPerLine) == HexColumn(chunk, bytesPerLine)
  {
    FixedPartsPrefix(chunk, |chunk|);
    assert chunk[..|chunk|] == chunk;
  }

  /**
   * `line` is laid out as a dump line for `chunk` at `offset`: the offset,
   * `": "`, the hex column, `" | "` and the ASCII of the chunk.
   */
  predicate LineShows(line: string, offset: int, chunk: seq<Byte>, bytesPerLine: int)
  {
    var o := |HexOffset(offset)|;
    var h := o + 2 + |HexColumn(chunk, bytesPerLine)|;
    |line| == h + 3 + |chunk|
    && line[..o] == HexOffset(offset) && line[o..o + 2] == ": "
    && line[h..h + 3] == " | " && line[h + 3..] == AsciiOf(chunk)
  }

  /** Every dump line starts with its offset and `": "` and ends with `" | "` and the ASCII of its bytes. */
  lemma DumpLineShape(chunk: seq<Byte>, offset: int, bytesPerLine: int)
    ensures LineShows(DumpLine(chunk, offset, bytesPerLine), offset, chunk, bytesPerLine)
  {
    ConcatFive(HexOffset(offset), ": ", HexColumn(chunk, bytesPerLine), " | ", AsciiOf(chunk));
  }

  /** The runs of bytes `hex_dump` shows, `bytes_per_line` at a time, each with its offset. */
  function Layout(data: seq<Byte>, offset: int, bytesPerLine: nat): (runs: seq<(seq<Byte>, int)>)
    requires bytesPerLine > 0
    decreases |data|
  {
    if data == [] then []
    else
      var n := Min(bytesPerLine, |data|);
      [(data[..n], offset)] + Layout(data[n..], offset + bytesPerLine, bytesPerLine)
  }

  lemma DivStep(x: int, b: int)
    requires b > 0
    ensures (x + b) / b == x / b + 1
  {
    var q, m := x / b, x % b;
    var q2, m2 := (x + b) / b, (x + b) % b;
    assert (q2 - q - 1) * b == m - m2;
    MulMono(q2 - q - 1, b);
  }

  lemma DivSmall(x: int, b: int)
    requires 0 <= x < b
    ensures x / b == 0
  {
    var q, m := x / b, x % b;
    assert q * b == x - m;
    MulMono(q, b);
  }

  /** `hex_dump` yields ceil(len(data) / bytes_per_line) lines. */
  lemma {:induction false} LayoutCount(data: seq<Byte>, offset: int, bytesPerLine: nat)
    requires bytesPerLine > 0
    ensures |Layout(data, offset, bytesPerLine)| == (|data| + bytesPerLine - 1) / bytesPerLine
    decreases |data|
  {
    if data != [] {
      var n := Min(bytesPerLine, |data|);
      LayoutCount(data[n..], offset + bytesPerLine, bytesPerLine);
      if |data| <= bytesPerLine {
        DivSmall(|data| - 1, bytesPerLine);
        DivStep(|data| - 1, bytesPerLine);
      } else {
        DivStep(|data| - 1, bytesPerLine);
        assert |data[n..]| + bytesPerLine - 1 == |data| - 1;
      }
    }
  }

  /** The `k`-th line shows the `k`-th run of `bytes_per_line` bytes, at offset `offset + k * bytes_per_line`. */
  lemma LayoutAt(data: seq<Byte>, offset: int, bytesPerLine: nat, k: nat)
    requires bytesPerLine > 0 && k * bytesPerLine < |data|
    ensures k < |Layout(data, offset, bytesPerLine)|
    ensures Layout(data, offset, bytesPerLine)[k]
         == (data[k * bytesPerLine..Min(k * bytesPerLine + bytesPerLine, |data|)], offset + k * bytesPerLine)
  {
    LayoutFrom(data, offset, bytesPerLine, k, k * bytesPerLine);
  }

  lemma {:induction false} LayoutFrom(data: seq<Byte>, offset: int, bytesPerLine: nat, k: nat, start: int)
    requires bytesPerLine > 0 && start == k * bytesPerLine && start < |data|
    ensures k < |Layout(data, offset, bytesPerLine)|
    ensures Layout(data, offset, bytesPerLine)[k] == (data[start..Min(start + bytesPerLine, |data|)], offset + start)
    decreases k
  {
    if k > 0 {
      PreviousRun(k, bytesPerLine);
      LayoutFrom(data[bytesPerLine..], offset + bytesPerLine, bytesPerLine, k - 1, start - bytesPerLine);
      SliceShift(data, bytesPerLine, start);
    }
  }

  lemma PreviousRun(k: nat, b: nat)
    requires k > 0
    ensures (k - 1) * b == k * b - b && k * b >= b
  {
    MulMono(k, b);
  }

  lemma SliceShift(data: seq<Byte>, b: nat, s: int)
    requires b <= s < |data|
    ensures data[b..][s - b..Min(s - b + b, |data[b..]|)] == data[s..Min(s + b, |data|)]
  {
  }

  lemma LayoutStep(data: seq<Byte>, offset: int, bytesPerLine: nat)
    requires bytesPerLine > 0 && data != []
    ensures var n := Min(bytesPerLine, |data|);
      Layout(data, offset, bytesPerLine) == [(data[..n], offset)] + Layout(data[n..], offset + n, bytesPerLine)
  {
  }

  /** Builds one `hex_dump` line cell by cell, as written. */
  method DumpLineOf(chunk: seq<Byte>, offset: int, bytesPerLine: nat) returns (line: string)
    ensures line == DumpLine(chunk, offset, bytesPerLine)
  {
    line := HexOffset(offset) + ": ";
    var cells := HexCellsOf(chunk);
    var parts := PadCells(cells, bytesPerLine + 1);
    line := line + Join(parts, " ") + " | ";
    line := AppendAscii(line, chunk);
    ConcatFive(HexOffset(offset), ": ", HexColumn(chunk, bytesPerLine), " | ", AsciiOf(chunk));
  }

  /** The hex cells of a line's bytes, with the empty spacer cell after the eighth. */
  method HexCellsOf(chunk: seq<Byte>) returns (parts: seq<string>)
    ensures parts == HexParts(chunk)
  {
    parts := [];
    for j := 0 to |chunk|
      invariant parts == HexParts(chunk[..j])
    {
      HexPartsNext(chunk, j);
      parts := parts + [Hex2(chunk[j])];
      if j == 7 {
        parts := parts + [""];
      }
    }
    assert chunk[..|chunk|] == chunk;
  }

  /** Pads a list of cells with blank cells up to `width` cells. */
  method PadCells(cells: seq<string>, width: int) returns (parts: seq<string>)
    ensures parts == Padded(cells, width)
  {
    parts := cells;
    while |parts| < width
      invariant |parts| >= |cells| && parts == cells + Blanks(|parts| - |cells|)
      invariant |parts| <= Max(|cells|, width)
      decreases width - |parts|
    {
      BlanksNext(cells, |parts| - |cells|);
      parts := parts + ["  "];
    }
    PaddedBlanks(cells, width, |parts| - |cells|);
  }

  /** Appends the ASCII column of `data` to `head`, one character per byte. */
  method AppendAscii(head: string, data: seq<Byte>) returns (line: string)
    ensures line == head + AsciiOf(data)
  {
    line := head;
    for k := 0 to |data|
      invariant line == head + AsciiOf(data[..k])
    {
      AsciiOfNext(data, k);
      line := line + [AsciiChar(data[k])];
    }
    assert data[..|data|] == data;
  }

  lemma HexPartsNext(chunk: seq<Byte>, j: nat)
    requires j < |chunk|
    ensures j != 7 ==> HexParts(chunk[..j + 1]) == HexParts(chunk[..j]) + [Hex2(chunk[j])]
    ensures j == 7 ==> HexParts(chunk[..j + 1]) == HexParts(chunk[..j]) + [Hex2(chunk[j])] + [""]
  {
    assert chunk[..j + 1][..j] == chunk[..j];
  }

  lemma FixedPartsNext(chunk: seq<Byte>, j: nat)
    ensures j != 7 ==> FixedParts(chunk, j + 1) == FixedParts(chunk, j) + [Cell(chunk, j)]
    ensures j == 7 ==> FixedParts(chunk, j + 1) == FixedParts(chunk, j) + [Cell(chunk, j)] + [""]
  {
  }

  lemma BlanksNext(cells: seq<string>, m: nat)
    ensures cells + Blanks(m) + ["  "] == cells + Blanks(m + 1)
  {
  }

  lemma PaddedBlanks(cells: seq<string>, n: int, m: nat)
    requires |cells| + m == Max(|cells|, n)
    ensures cells + Blanks(m) == Padded(cells, n)
  {
  }

  lemma LayoutAdvance(data: seq<Byte>, offset: int, bytesPerLine: nat,
                      done: seq<(seq<Byte>, int)>, rest: seq<Byte>, at: int)
    requires bytesPerLine > 0 && rest != []
    requires done + Layout(rest, at, bytesPerLine) == Layout(data, offset, bytesPerLine)
    ensures var n := Min(bytesPerLine, |rest|);
      (done + [(rest[..n], at)]) + Layout(rest[n..], at + n, bytesPerLine) == Layout(data, offset, bytesPerLine)
  {
    LayoutStep(rest, at, bytesPerLine);
    var n := Min(bytesPerLine, |rest|);
    assert (done + [(rest[..n], at)]) + Layout(rest[n..], at + n, bytesPerLine)
        == done + ([(rest[..n], at)] + Layout(rest[n..], at + n, bytesPerLine));
  }

  /** `lines` are the dump lines of the runs in `runs`, one for one. */
  predicate Renders(lines: seq<string>, runs: seq<(seq<Byte>, int)>, bytesPerLine: nat)
  {
    |lines| == |runs| && forall k :: 0 <= k < |lines| ==> lines[k] == DumpLine(runs[k].0, runs[k].1, bytesPerLine)
  }

  lemma RendersSnoc(lines: seq<string>, runs: seq<(seq<Byte>, int)>, bytesPerLine: nat,
                    line: string, run: (seq<Byte>, int))
    requires Renders(lines, runs, bytesPerLine) && line == DumpLine(run.0, run.1, bytesPerLine)
    ensures Renders(lines + [line], runs + [run], bytesPerLine)
  {
  }

  /**
   * `hex_dump`: an error for a zero line width (Python's `range` refuses a zero
   * step), no lines for a negative one, and otherwise one line per run of
   * `Layout`.
   */
  method HexDump(data: seq<Byte>, offset: int, bytesPerLine: int) returns (r: Result<seq<string>>)
    ensures r.Err? <==> bytesPerLine == 0
    ensures bytesPerLine < 0 ==> r == Ok([])
    ensures bytesPerLine > 0 ==> r.Ok? && Renders(r.value, Layout(data, offset, bytesPerLine), bytesPerLine)
  {
    if bytesPerLine == 0 {
      return Err("ValueError");
    }
    var lines: seq<string> := [];
    if bytesPerLine > 0 {
      var rest, at := data, offset;
      ghost var done: seq<(seq<Byte>, int)> := [];
      while rest != []
        invariant DumpSoFar(data, offset, bytesPerLine, lines, done, rest, at)
        decreases |rest|
      {
        var n := Min(bytesPerLine, |rest|);
        var line := DumpLineOf(rest[..n], at, bytesPerLine);
        DumpStep(data, offset, bytesPerLine, lines, done, rest, at, line);
        lines, done := lines + [line], done + [(rest[..n], at)];
        rest, at := rest[n..], at + n;
      }
      DumpDone(data, offset, bytesPerLine, lines, done, at);
    }
    return Ok(lines);
  }

  /**
   * The loop state of `hex_dump`: the lines so far render the runs so far,
   * and the runs of what is left complete the layout.
   */
  ghost predicate DumpSoFar(data: seq<Byte>, offset: int, bytesPerLine: nat, lines: seq<string>,
                            done: seq<(seq<Byte>, int)>, rest: seq<Byte>, at: int)
  {
    bytesPerLine > 0 &&
    done + Layout(rest, at, bytesPerLine) == Layout(data, offset, bytesPerLine) &&
    Renders(lines, done, bytesPerLine)
  }

  lemma DumpStep(data: seq<Byte>, offset: int, bytesPerLine: nat, lines: seq<string>,
                 done: seq<(seq<Byte>, int)>, rest: seq<Byte>, at: int, line: string)
    requires rest != [] && DumpSoFar(data, offset, bytesPerLine, lines, done, rest, at)
    requires line == DumpLine(rest[..Min(bytesPerLine, |rest|)], at, bytesPerLine)
    ensures var n := Min(bytesPerLine, |rest|);
      DumpSoFar(data, offset, bytesPerLine, lines + [line], done + [(rest[..n], at)], rest[n..], at + n)
  {
    var n := Min(bytesPerLine, |rest|);
    LayoutAdvance(data, offset, bytesPerLine, done, rest, at);
    RendersSnoc(lines, done, bytesPerLine, line, (rest[..n], at));
  }

  lemma DumpDone(data: seq<Byte>, offset: int, bytesPerLine: nat, lines: seq<string>,
                 done: seq<(seq<Byte>, int)>, at: int)
    requires DumpSoFar(data, offset, bytesPerLine, lines, done, [], at)
    ensures Renders(lines, Layout(data, offset, bytesPerLine), bytesPerLine)
  {
    assert done == Layout(data, offset, bytesPerLine);
  }

  /**
   * The dump as written: ceil(len(data) / bytes_per_line) lines, the k-th
   * laid out for `data[k * bytes_per_line : (k + 1) * bytes_per_line]` at
   * offset `offset + k * bytes_per_line`.
   */
  lemma HexDumpLines(data: seq<Byte>, offset: int, bytesPerLine: nat, lines: seq<string>)
    requires bytesPerLine > 0 && Renders(lines, Layout(data, offset, bytesPerLine), bytesPerLine)
    ensures |lines| == (|data| + bytesPerLine - 1) / bytesPerLine
    ensures forall k: nat :: k < |lines| ==>
      LineShows(lines[k], offset + k * bytesPerLine, Slice(data, k * bytesPerLine, k * bytesPerLine + bytesPerLine),
                bytesPerLine)
  {
    LayoutCount(data, offset, bytesPerLine);
    forall k: nat | k < |lines|
      ensures LineShows(lines[k], offset + k * bytesPerLine,
                        Slice(data, k * bytesPerLine, k * bytesPerLine + bytesPerLine), bytesPerLine)
    {
      LineOfRun(data, offset, bytesPerLine, lines, k);
    }
  }

  /** A line number below the line count starts inside the data. */
  lemma RunStartInside(n: nat, b: nat, k: nat)
    requires b > 0 && k < (n + b - 1) / b
    ensures k * b < n
  {
    var q := (n + b - 1) / b;
    assert q * b + (n + b - 1) % b == n + b - 1;
    MulMono(q - k, b);
    assert q * b - k * b == (q - k) * b;
  }

  lemma LineStartsInside(data: seq<Byte>, offset: int, bytesPerLine: nat, lines: seq<string>, k: nat)
    requires bytesPerLine > 0 && Renders(lines, Layout(data, offset, bytesPerLine), bytesPerLine)
    requires k < |lines|
    ensures 0 <= k * bytesPerLine < |data|
  {
    LayoutCount(data, offset, bytesPerLine);
    RunStartInside(|data|, bytesPerLine, k);
  }

  lemma LineOfRun(data: seq<Byte>, offset: int, bytesPerLine: nat, lines: seq<string>, k: nat)
    requires bytesPerLine > 0 && Renders(lines, Layout(data, offset, bytesPerLine), bytesPerLine)
    requires k < |lines|
    ensures LineShows(lines[k], offset + k * bytesPerLine,
                      Slice(data, k * bytesPerLine, k * bytesPerLine + bytesPerLine), bytesPerLine)
  {
    LineStartsInside(data, offset, bytesPerLine, lines, k);
    var start := k * bytesPerLine;
    LayoutFrom(data, offset, bytesPerLine, k, start);
    var run := data[start..Min(start + bytesPerLine, |data|)];
    assert run == Slice(data, start, start + bytesPerLine);
    assert lines[k] == DumpLine(run, offset + start, bytesPerLine);
    DumpLineShape(run, offset + start, bytesPerLine);
    ShowsSame(lines[k], DumpLine(run, offset + start, bytesPerLine), offset + k * bytesPerLine,
              Slice(data, k * bytesPerLine, k * bytesPerLine + bytesPerLine), run, bytesPerLine);
  }

  lemma ShowsSame(line: string, line2: string, offset: int, chunk: seq<Byte>, chunk2: seq<Byte>, bytesPerLine: int)
    requires line == line2 && chunk == chunk2 && LineShows(line2, offset, chunk2, bytesPerLine)
    ensures LineShows(line, offset, chunk, bytesPerLine)
  {
  }

  // ---------------------------------------------------------------- _format_hex_line

  /** The hex cells of `_format_hex_line`: one per position, filler past the data. */
  function LineCells(data: seq<Byte>, bytesPerLine: int): (r: seq<string>)
    ensures |r| == Max(0, bytesPerLine) && SumLen(r) == 2 * |r|
    ensures forall i :: 0 <= i < |r| ==> r[i] == Cell(data, i)
    decreases Max(0, bytesPerLine)
  {
    if bytesPerLine <= 0 then []
    else
      var p := LineCells(data, bytesPerLine - 1);
      SumLenAppend(p, [Cell(data, bytesPerLine - 1)]);
      p + [Cell(data, bytesPerLine - 1)]
  }

  /** `_format_hex_line`: a side of the comparison view; an empty side shows spaces only. */
  function HexLine(data: seq<Byte>, offset: int, bytesPerLine: int): (line: string)
  {
    if data == [] then HexOffset(offset) + ": " + seq(3 * Max(0, bytesPerLine), i => ' ') + " | "
    else HexOffset(offset) + ": " + Join(LineCells(data, bytesPerLine), " ") + " | " + AsciiOf(data)
  }

  /**
   * A non-empty line shows the first `bytes_per_line` bytes in a column of
   * `3 * bytes_per_line - 1` characters and the ASCII of all its bytes after
   * `" | "`; an empty line's column is `3 * bytes_per_line` spaces.
   */
  lemma HexLineShape(data: seq<Byte>, offset: int, bytesPerLine: int)
    requires bytesPerLine > 0
    ensures var o := |HexOffset(offset)| + 2;
      var line := HexLine(data, offset, bytesPerLine);
      var w := if data == [] then 3 * bytesPerLine else 3 * bytesPerLine - 1;
      |line| == o + w + 3 + |data|
      && line[o + w..o + w + 3] == " | "
      && line[o + w + 3..] == AsciiOf(data)
  {
    JoinLength(LineCells(data, bytesPerLine));
  }

  /** Builds a `_format_hex_line` line. */
  method FormatHexLine(data: seq<Byte>, offset: int, bytesPerLine: int) returns (line: string)
    ensures line == HexLine(data, offset, bytesPerLine)
  {
    if data == [] {
      return HexOffset(offset) + ": " + seq(3 * Max(0, bytesPerLine), i => ' ') + " | ";
    }
    line := HexOffset(offset) + ": ";
    var parts: seq<string> := [];
    var i := 0;
    while i < bytesPerLine
      invariant 0 <= i <= Max(0, bytesPerLine)
      invariant parts == LineCells(data, i)
      decreases bytesPerLine - i
    {
      if i < |data| {
        parts := parts + [Hex2(data[i])];
      } else {
        parts := parts + ["  "];
      }
      i := i + 1;
    }
    assert i == Max(0, bytesPerLine);
    line := line + Join(parts, " ") + " | ";
    line := AppendAscii(line, data);
  }

  lemma AsciiOfNext(data: seq<Byte>, k: int)
    requires 0 <= k < |data|
    ensures AsciiOf(data[..k + 1]) == AsciiOf(data[..k]) + [AsciiChar(data[k])]
  {
  }
}
