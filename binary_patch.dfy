/**
 * `BinaryPatch` of app/core/diff/binary_diff.py: the BPATCH01 patch format.
 *
 * A patch is the magic `BPATCH01`, a little-endian header (original size and
 * new size as unsigned 64-bit numbers, the entry count as an unsigned 32-bit
 * number) and, per entry, its offset (64 bits), its original length and the
 * length of its new bytes (16 bits each) followed by the original bytes and
 * the new bytes.
 */
module BinaryPatch {
  import opened Wrappers
  import opened TextUtil
  import opened Models
  import opened BinaryDiff

  /** `b'BPATCH01'`. */
  const Magic: seq<Byte> := [66, 80, 65, 84, 67, 72, 48, 49]

  /** The sizes of the `struct` formats `'Q'`, `'I'` and `'H'`. */
  const QSize: nat := 8
  const ISize: nat := 4
  const HSize: nat := 2

  const U16: nat := 0x1_0000
  const U32: nat := 0x1_0000_0000
  const U64: nat := 0x1_0000_0000_0000_0000

  /** `BinaryPatch.PatchEntry`. */
  datatype PatchEntry = PatchEntry(offset: int, originalLength: int, originalBytes: seq<Byte>, newBytes: seq<Byte>)

  /** What `_deserialize_patch` returns: the entries, the original size and the new size. */
  datatype Patch = Patch(entries: seq<PatchEntry>, origSize: int, newSize: int)

  // ---------------------------------------------------------------- little-endian numbers

  function Pow256(w: nat): (r: nat)
    ensures r >= 1
  {
    if w == 0 then 1 else 256 * Pow256(w - 1)
  }

  lemma PowWidths()
    ensures Pow256(2) == U16 && Pow256(4) == U32 && Pow256(8) == U64
  {
    assert Pow256(1) == 256;
    assert Pow256(2) == 0x1_0000;
    assert Pow256(3) == 0x100_0000;
    assert Pow256(4) == 0x1_0000_0000;
    assert Pow256(5) == 0x100_0000_0000;
    assert Pow256(6) == 0x1_0000_0000_0000;
    assert Pow256(7) == 0x100_0000_0000_0000;
  }

  /** The value of little-endian bytes, as `struct.unpack` reads an unsigned field. */
  function LEValue(s: seq<Byte>): (n: nat)
  {
    if s == [] then 0 else s[0] + 256 * LEValue(s[1..])
  }

  /** The low `w` bytes of `n`, least significant first, as `struct.pack` writes an unsigned field. */
  function LE(n: nat, w: nat): (r: seq<Byte>)
    ensures |r| == w
  {
    if w == 0 then [] else [n % 256] + LE(n / 256, w - 1)
  }

  /** A number that fits in `w` bytes reads back from its `w` little-endian bytes. */
  lemma {:induction false} LERoundTrip(n: nat, w: nat)
    requires n < Pow256(w)
    ensures LEValue(LE(n, w)) == n
  {
    if w > 0 {
      LERoundTrip(n / 256, w - 1);
      assert LE(n, w)[1..] == LE(n / 256, w - 1);
    }
  }

  /** Every little-endian value of `w` bytes fits in `w` bytes. */
  lemma {:induction false} LEValueBound(s: seq<Byte>)
    ensures LEValue(s) < Pow256(|s|)
  {
    if s != [] {
      LEValueBound(s[1..]);
    }
  }

  // ---------------------------------------------------------------- _serialize_patch

  /** The fields of an entry fit their `'<QHH'` slots. */
  predicate EntryFits(e: PatchEntry)
  {
    0 <= e.offset < U64 && 0 <= e.originalLength < U16 && |e.newBytes| < U16
  }

  /** `struct.pack` accepts every field of the patch. */
  predicate Fits(p: Patch)
  {
    0 <= p.origSize < U64 && 0 <= p.newSize < U64 && |p.entries| < U32
    && forall k :: 0 <= k < |p.entries| ==> EntryFits(p.entries[k])
  }

  /** An entry records as many original bytes as its original length says. */
  predicate WellFormed(p: Patch)
  {
    forall k :: 0 <= k < |p.entries| ==> |p.entries[k].originalBytes| == p.entries[k].originalLength
  }

  /** The `'<QHH'` fields of an entry. */
  function FixedFields(e: PatchEntry): (r: seq<Byte>)
    requires EntryFits(e)
    ensures |r| == 12
    ensures LEValue(r[..8]) == e.offset && LEValue(r[8..10]) == e.originalLength && LEValue(r[10..]) == |e.newBytes|
  {
    PowWidths();
    LERoundTrip(e.offset, QSize);
    LERoundTrip(e.originalLength, HSize);
    LERoundTrip(|e.newBytes|, HSize);
    var a, b, c := LE(e.offset, QSize), LE(e.originalLength, HSize), LE(|e.newBytes|, HSize);
    assert (a + b + c)[..8] == a && (a + b + c)[8..10] == b && (a + b + c)[10..] == c;
    a + b + c
  }

  function EntryBytes(e: PatchEntry): (r: seq<Byte>)
    requires EntryFits(e)
    ensures |r| == 12 + |e.originalBytes| + |e.newBytes|
  {
    FixedFields(e) + e.originalBytes + e.newBytes
  }

  function EntriesBytes(es: seq<PatchEntry>): (r: seq<Byte>)
    requires forall k :: 0 <= k < |es| ==> EntryFits(es[k])
  {
    if es == [] then [] else EntryBytes(es[0]) + EntriesBytes(es[1..])
  }

  lemma {:induction false} EntriesBytesSnoc(es: seq<PatchEntry>, e: PatchEntry)
    requires forall k :: 0 <= k < |es| ==> EntryFits(es[k])
    requires EntryFits(e)
    ensures EntriesBytes(es + [e]) == EntriesBytes(es) + EntryBytes(e)
  {
    if es == [] {
      assert [e][1..] == [];
      assert es + [e] == [e];
    } else {
      assert (es + [e])[1..] == es[1..] + [e];
      EntriesBytesSnoc(es[1..], e);
    }
  }

  function Header(p: Patch): (r: seq<Byte>)
    requires 0 <= p.origSize && 0 <= p.newSize
    ensures |r| == 28
  {
    Magic + LE(p.origSize, QSize) + LE(p.newSize, QSize) + LE(|p.entries|, ISize)
  }

  /** `_serialize_patch`: the patch bytes, or `struct.error` when a field does not fit its slot. */
  function Serialized(p: Patch): (r: Result<seq<Byte>>)
    ensures r.Ok? <==> Fits(p)
    ensures r.Err? ==> r.error == "struct.error"
    ensures r.Ok? ==> StartsWith(r.value, Magic)
  {
    if !Fits(p) then Err("struct.error") else Ok(Header(p) + EntriesBytes(p.entries))
  }

  /** `_serialize_patch`: the header, then each entry appended in turn. */
  method SerializePatch(entries: seq<PatchEntry>, origSize: int, newSize: int) returns (r: Result<seq<Byte>>)
    ensures r == Serialized(Patch(entries, origSize, newSize))
  {
    PowWidths();
    if !(0 <= origSize < U64 && 0 <= newSize < U64 && |entries| < U32) {
      return Err("struct.error");
    }
    var data := Magic + LE(origSize, QSize) + LE(newSize, QSize) + LE(|entries|, ISize);
    ghost var header := Header(Patch(entries, origSize, newSize));
    for k := 0 to |entries|
      invariant forall j :: 0 <= j < k ==> EntryFits(entries[j])
      invariant data == header + EntriesBytes(entries[..k])
    {
      var e := entries[k];
      if !EntryFits(e) {
        return Err("struct.error");
      }
      ghost var before := data;
      data := data + FixedFields(e);
      data := data + e.originalBytes;
      data := data + e.newBytes;
      AppendEntry(header, entries[..k], e, before, data);
      assert entries[..k + 1] == entries[..k] + [e];
    }
    assert entries[..|entries|] == entries;
    return Ok(data);
  }

  /** The bytes one loop step of `_serialize_patch` appends are the entry's bytes. */
  lemma AppendEntry(header: seq<Byte>, es: seq<PatchEntry>, e: PatchEntry, before: seq<Byte>, after: seq<Byte>)
    requires forall j :: 0 <= j < |es| ==> EntryFits(es[j])
    requires EntryFits(e) && before == header + EntriesBytes(es)
    requires after == before + FixedFields(e) + e.originalBytes + e.newBytes
    ensures after == header + EntriesBytes(es + [e])
  {
    EntriesBytesSnoc(es, e);
    var f, b := FixedFields(e), EntriesBytes(es);
    AppendAssoc(before, f, e.originalBytes);
    AppendAssoc(before, f + e.originalBytes, e.newBytes);
    AppendAssoc(header, b, EntryBytes(e));
  }

  // ---------------------------------------------------------------- _deserialize_patch

  /** `patch[a:a + n]` for non-negative `a` and `n`: as many of those bytes as there are. */
  function Take(s: seq<Byte>, a: nat, n: nat): (r: seq<Byte>)
    ensures a + n <= |s| ==> r == s[a..a + n]
    ensures |r| <= n
  {
    s[Min(a, |s|)..Min(a + n, |s|)]
  }

  /** One entry read at `pos`: its `'<QHH'` fields, then as many of its bytes as there are; and the next position. */
  function ReadEntry(patch: seq<Byte>, pos: nat): (r: (PatchEntry, nat))
    requires pos + 12 <= |patch|
    ensures r.0.originalLength >= 0 && r.1 >= pos + 12 + r.0.originalLength
  {
    var ol, nl := LEValue(patch[pos + 8..pos + 10]), LEValue(patch[pos + 10..pos + 12]);
    (PatchEntry(LEValue(patch[pos..pos + 8]), ol, Take(patch, pos + 12, ol), Take(patch, pos + 12 + ol, nl)),
     pos + 12 + ol + nl)
  }

  /** `count` entries read from `pos` on. */
  function DecodeEntries(patch: seq<Byte>, pos: nat, count: nat): (r: Result<seq<PatchEntry>>)
    ensures r.Ok? ==> |r.value| == count
    ensures r.Err? ==> r.error == "struct.error"
    decreases count
  {
    if count == 0 then Ok([])
    else if pos + 12 > |patch| then Err("struct.error")
    else
      var (e, next) := ReadEntry(patch, pos);
      Prepend([e], DecodeEntries(patch, next, count - 1))
  }

  /** `es` in front of the entries of `r`, if `r` holds any. */
  function Prepend(es: seq<PatchEntry>, r: Result<seq<PatchEntry>>): (q: Result<seq<PatchEntry>>)
    ensures q.Ok? <==> r.Ok?
    ensures r.Ok? ==> q.value == es + r.value
    ensures r.Err? ==> q == r
  {
    match r
    case Ok(rest) => Ok(es + rest)
    case Err(msg) => Err(msg)
  }

  /**
   * `_deserialize_patch`: `Invalid patch format` exactly when the data does
   * not start with the magic, `struct.error` when the header or an entry's
   * fixed fields are cut short.
   */
  function Deserialized(patch: seq<Byte>): (r: Result<Patch>)
    ensures r == Err("Invalid patch format") <==> !StartsWith(patch, Magic)
    ensures r.Ok? ==> |patch| >= 28 && |r.value.entries| == LEValue(patch[24..28])
  {
    if !StartsWith(patch, Magic) then Err("Invalid patch format")
    else if |patch| < 28 then Err("struct.error")
    else
      match DecodeEntries(patch, 28, LEValue(patch[24..28]))
      case Ok(es) => Ok(Patch(es, LEValue(patch[8..16]), LEValue(patch[16..24])))
      case Err(msg) => Err(msg)
  }

  /** `_deserialize_patch`: reads the header, then the entries. */
  method DeserializePatch(patch: seq<Byte>) returns (r: Result<Patch>)
    ensures r == Deserialized(patch)
  {
    if !StartsWith(patch, Magic) {
      return Err("Invalid patch format");
    }
    var pos: nat := |Magic|;
    if |patch| < pos + 20 {
      return Err("struct.error");
    }
    var origSize, newSize, count := LEValue(patch[pos..pos + 8]), LEValue(patch[pos + 8..pos + 16]), LEValue(patch[pos + 16..pos + 20]);
    pos := pos + 20;
    var entries := ReadEntries(patch, pos, count);
    DeserializedByEntries(patch);
    if entries.Err? {
      return Err(entries.error);
    }
    return Ok(Patch(entries.value, origSize, newSize));
  }

  /** The entry loop of `_deserialize_patch`: `count` entries read with a moving cursor. */
  method ReadEntries(patch: seq<Byte>, start: nat, count: nat) returns (r: Result<seq<PatchEntry>>)
    ensures r == DecodeEntries(patch, start, count)
  {
    var pos: nat := start;
    var entries: seq<PatchEntry> := [];
    PrependNothing(DecodeEntries(patch, pos, count));
    for k := 0 to count
      invariant ReadSoFar(patch, start, count, entries, pos, count - k)
    {
      if pos + 12 > |patch| {
        DecodeCut(patch, pos, count - k, entries);
        return Err("struct.error");
      }
      var (e, next) := ReadEntry(patch, pos);
      ReadStep(patch, start, count, pos, count - k, e, next, entries);
      entries := entries + [e];
      pos := next;
    }
    PrependEmpty(entries);
    return Ok(entries);
  }

  /** The loop invariant of `ReadEntries`: what was read, followed by the `n` entries still to read from `pos`. */
  ghost predicate ReadSoFar(patch: seq<Byte>, start: nat, count: nat, entries: seq<PatchEntry>, pos: nat, n: nat)
  {
    Prepend(entries, DecodeEntries(patch, pos, n)) == DecodeEntries(patch, start, count)
  }

  /** Fixed fields cut short end the decoding with `struct.error`, whatever was read before. */
  lemma DecodeCut(patch: seq<Byte>, pos: nat, n: nat, entries: seq<PatchEntry>)
    requires n > 0 && pos + 12 > |patch|
    ensures Prepend(entries, DecodeEntries(patch, pos, n)) == Err("struct.error")
  {
  }

  /** The loop step of `ReadEntries`: one entry moves from the rest to what was read. */
  lemma ReadStep(patch: seq<Byte>, start: nat, count: nat, pos: nat, n: nat, e: PatchEntry, next: nat,
                 entries: seq<PatchEntry>)
    requires n > 0 && pos + 12 <= |patch| && ReadEntry(patch, pos) == (e, next)
    requires ReadSoFar(patch, start, count, entries, pos, n)
    ensures ReadSoFar(patch, start, count, entries + [e], next, n - 1)
  {
    DecodeEntryAt(patch, pos, n, e, next);
    PrependAssoc(entries, e, DecodeEntries(patch, next, n - 1));
  }

  lemma PrependEmpty(es: seq<PatchEntry>)
    ensures Prepend(es, Ok([])) == Ok(es)
  {
    assert es + [] == es;
  }

  lemma PrependNothing(r: Result<seq<PatchEntry>>)
    ensures Prepend([], r) == r
  {
    if r.Ok? {
      assert [] + r.value == r.value;
    }
  }

  lemma PrependHead(es: seq<PatchEntry>)
    requires es != []
    ensures Prepend([es[0]], Ok(es[1..])) == Ok(es)
  {
    HeadTail(es);
  }

  lemma PrependAssoc(es: seq<PatchEntry>, e: PatchEntry, r: Result<seq<PatchEntry>>)
    ensures Prepend(es, Prepend([e], r)) == Prepend(es + [e], r)
  {
    if r.Ok? {
      assert es + ([e] + r.value) == (es + [e]) + r.value;
    }
  }

  lemma DeserializedByEntries(patch: seq<Byte>)
    requires StartsWith(patch, Magic) && |patch| >= 28
    ensures var d := DecodeEntries(patch, 28, LEValue(patch[24..28]));
      Deserialized(patch) == if d.Ok? then Ok(Patch(d.value, LEValue(patch[8..16]), LEValue(patch[16..24]))) else Err(d.error)
  {
  }

  /** An entry reads back from where it was written. */
  lemma DecodeOne(patch: seq<Byte>, pos: nat, e: PatchEntry)
    requires EntryFits(e) && |e.originalBytes| == e.originalLength
    requires pos + |EntryBytes(e)| <= |patch| && patch[pos..pos + |EntryBytes(e)|] == EntryBytes(e)
    ensures pos + 12 <= |patch| && ReadEntry(patch, pos) == (e, pos + |EntryBytes(e)|)
  {
    SplitThree(patch, pos, FixedFields(e), e.originalBytes, e.newBytes);
    var f := FixedFields(e);
    SubSlice(patch, pos, pos + 12, 0, 8);
    SubSlice(patch, pos, pos + 12, 8, 10);
    SubSlice(patch, pos, pos + 12, 10, 12);
  }

  /** Where `a + b + c` sits inside `s`, so do `a`, `b` and `c`. */
  lemma SplitThree(s: seq<Byte>, pos: nat, a: seq<Byte>, b: seq<Byte>, c: seq<Byte>)
    requires pos + |a + b + c| <= |s| && s[pos..pos + |a + b + c|] == a + b + c
    ensures s[pos..pos + |a|] == a
    ensures s[pos + |a|..pos + |a| + |b|] == b
    ensures s[pos + |a| + |b|..pos + |a| + |b| + |c|] == c
  {
    var t := s[pos..pos + |a + b + c|];
    assert t[..|a|] == a && t[|a|..|a| + |b|] == b && t[|a| + |b|..] == c;
    forall i | 0 <= i < |b|
      ensures s[pos + |a|..pos + |a| + |b|][i] == b[i]
    {
      assert s[pos + |a| + i] == t[|a| + i];
    }
    forall i | 0 <= i < |c|
      ensures s[pos + |a| + |b|..pos + |a| + |b| + |c|][i] == c[i]
    {
      assert s[pos + |a| + |b| + i] == t[|a| + |b| + i];
    }
    assert s[pos..pos + |a|] == t[..|a|];
  }

  lemma {:induction false} DecodeEncoded(patch: seq<Byte>, pos: nat, es: seq<PatchEntry>)
    requires EntriesOk(es)
    requires pos + |EntriesBytes(es)| <= |patch| && patch[pos..pos + |EntriesBytes(es)|] == EntriesBytes(es)
    ensures DecodeEntries(patch, pos, |es|) == Ok(es)
    decreases |es|
  {
    if es != [] {
      var next := DecodeFirst(patch, pos, es);
      DecodeEncoded(patch, next, es[1..]);
      PrependHead(es);
    }
  }

  /** Decoding the first of the encoded entries leaves the others encoded right after it. */
  lemma DecodeFirst(patch: seq<Byte>, pos: nat, es: seq<PatchEntry>) returns (next: nat)
    requires es != []
    requires EntriesOk(es)
    requires pos + |EntriesBytes(es)| <= |patch| && patch[pos..pos + |EntriesBytes(es)|] == EntriesBytes(es)
    ensures EntriesOk(es[1..])
    ensures next + |EntriesBytes(es[1..])| <= |patch| && patch[next..next + |EntriesBytes(es[1..])|] == EntriesBytes(es[1..])
    ensures DecodeEntries(patch, pos, |es|) == Prepend([es[0]], DecodeEntries(patch, next, |es[1..]|))
  {
    var e := es[0];
    var b := EntryBytes(e);
    next := pos + |b|;
    EntriesOkTail(es);
    assert EntriesBytes(es) == b + EntriesBytes(es[1..]);
    SplitTwo(patch, pos, b, EntriesBytes(es[1..]));
    DecodeOne(patch, pos, e);
    DecodeEntryAt(patch, pos, |es|, e, next);
  }

  /** Entries that fit their fields and record their original bytes exactly. */
  ghost predicate EntriesOk(es: seq<PatchEntry>)
  {
    forall k :: 0 <= k < |es| ==> EntryFits(es[k]) && |es[k].originalBytes| == es[k].originalLength
  }

  lemma EntriesOkTail(es: seq<PatchEntry>)
    requires es != [] && EntriesOk(es)
    ensures EntriesOk(es[1..])
  {
    assert forall k :: 0 <= k < |es| - 1 ==> es[1..][k] == es[k + 1];
  }

  /** Where `a + b` sits inside `s`, so do `a` and `b`. */
  lemma SplitTwo(s: seq<Byte>, pos: nat, a: seq<Byte>, b: seq<Byte>)
    requires pos + |a + b| <= |s| && s[pos..pos + |a + b|] == a + b
    ensures s[pos..pos + |a|] == a
    ensures s[pos + |a|..pos + |a| + |b|] == b
  {
    var t := s[pos..pos + |a + b|];
    assert t[..|a|] == a && t[|a|..] == b;
    forall i | 0 <= i < |b|
      ensures s[pos + |a|..pos + |a| + |b|][i] == b[i]
    {
      assert s[pos + |a| + i] == t[|a| + i];
    }
    assert s[pos..pos + |a|] == t[..|a|];
  }

  lemma DecodeEntryAt(patch: seq<Byte>, pos: nat, count: nat, e: PatchEntry, next: nat)
    requires count > 0 && pos + 12 <= |patch| && ReadEntry(patch, pos) == (e, next)
    ensures DecodeEntries(patch, pos, count) == Prepend([e], DecodeEntries(patch, next, count - 1))
  {
  }

  /**
   * `_deserialize_patch(_serialize_patch(entries, o, n))` gives back
   * `(entries, o, n)` when every field fits and every entry records exactly
   * `original_length` original bytes.
   */
  lemma SerializeRoundTrip(p: Patch)
    requires Fits(p) && WellFormed(p)
    ensures Serialized(p).Ok? && Deserialized(Serialized(p).value) == Ok(p)
  {
    var h := Header(p);
    var bytes := h + EntriesBytes(p.entries);
    var es := EntriesBytes(p.entries);
    SuffixSlice(h, es);
    DecodeEncoded(bytes, 28, p.entries);
    HeaderReads(p);
    PrefixSlice(h, es, 0, 8);
    PrefixSlice(h, es, 8, 16);
    PrefixSlice(h, es, 16, 24);
    PrefixSlice(h, es, 24, 28);
    DeserializedFrom(bytes, p);
  }

  lemma HeaderReads(p: Patch)
    requires Fits(p)
    ensures var h := Header(p);
      h[..8] == Magic && LEValue(h[8..16]) == p.origSize && LEValue(h[16..24]) == p.newSize
      && LEValue(h[24..28]) == |p.entries|
  {
    PowWidths();
    LERoundTrip(p.origSize, QSize);
    LERoundTrip(p.newSize, QSize);
    LERoundTrip(|p.entries|, ISize);
    var a, b, c := LE(p.origSize, QSize), LE(p.newSize, QSize), LE(|p.entries|, ISize);
    SuffixSlice(Magic + a + b, c);
    PrefixSlice(Magic + a + b, c, 16, 24);
    SuffixSlice(Magic + a, b);
    PrefixSlice(Magic + a + b, c, 8, 16);
    PrefixSlice(Magic + a, b, 8, 16);
    SuffixSlice(Magic, a);
    PrefixSlice(Magic + a + b, c, 0, 8);
    PrefixSlice(Magic + a, b, 0, 8);
    PrefixSlice(Magic, a, 0, 8);
  }

  lemma DeserializedFrom(bytes: seq<Byte>, p: Patch)
    requires |bytes| >= 28 && bytes[..8] == Magic
    requires LEValue(bytes[8..16]) == p.origSize && LEValue(bytes[16..24]) == p.newSize
    requires LEValue(bytes[24..28]) == |p.entries|
    requires DecodeEntries(bytes, 28, |p.entries|) == Ok(p.entries)
    ensures Deserialized(bytes) == Ok(p)
  {
  }

  // ---------------------------------------------------------------- apply_patch

  /**
   * One entry applied: the slice `[offset, offset + original_length)` must
   * hold the entry's original bytes, and is replaced by its new bytes.
   */
  function ApplyEntry(data: seq<Byte>, e: PatchEntry): (r: Result<seq<Byte>>)
    ensures r.Err? ==> r.error == "Original bytes mismatch"
    ensures r.Ok? ==> |r.value| == |data| - |e.originalBytes| + |e.newBytes|
  {
    var end := e.offset + e.originalLength;
    if Slice(data, e.offset, end) != e.originalBytes then Err("Original bytes mismatch")
    else Ok(SliceAssign(data, e.offset, end, e.newBytes))
  }

  /** The entries applied last to first, as `apply_patch` walks `reversed(entries)`. */
  function ApplyEntries(data: seq<Byte>, es: seq<PatchEntry>): (r: Result<seq<Byte>>)
    ensures r.Err? ==> r.error == "Original bytes mismatch"
    decreases |es|
  {
    if es == [] then Ok(data)
    else
      match ApplyEntry(data, Last(es))
      case Err(msg) => Err(msg)
      case Ok(next) => ApplyEntries(next, es[..|es| - 1])
  }

  /**
   * `apply_patch`: the errors of `_deserialize_patch`, then `Original size
   * mismatch`, `Original bytes mismatch` or `Result size mismatch`.
   */
  function Applied(original: seq<Byte>, patch: seq<Byte>): (r: Result<seq<Byte>>)
    ensures !StartsWith(patch, Magic) ==> r == Err("Invalid patch format")
    ensures Deserialized(patch).Ok? && |original| != Deserialized(patch).value.origSize ==>
      r == Err("Original size mismatch")
    ensures r.Ok? ==>
      Deserialized(patch).Ok? && |original| == Deserialized(patch).value.origSize
      && |r.value| == Deserialized(patch).value.newSize
  {
    match Deserialized(patch)
    case Err(msg) => Err(msg)
    case Ok(p) =>
      if |original| != p.origSize then Err("Original size mismatch")
      else
        match ApplyEntries(original, p.entries)
        case Err(msg) => Err(msg)
        case Ok(result) => if |result| != p.newSize then Err("Result size mismatch") else Ok(result)
  }

  /** `apply_patch`: the size checks around the entries applied to a working copy. */
  method ApplyPatch(original: seq<Byte>, patch: seq<Byte>) returns (r: Result<seq<Byte>>)
    ensures r == Applied(original, patch)
  {
    var d := DeserializePatch(patch);
    if d.Err? {
      return Err(d.error);
    }
    var entries, origSize, newSize := d.value.entries, d.value.origSize, d.value.newSize;
    if |original| != origSize {
      return Err("Original size mismatch");
    }
    var result := ApplyReversed(original, entries);
    if result.Err? {
      return result;
    }
    if |result.value| != newSize {
      return Err("Result size mismatch");
    }
    return result;
  }

  /** The loop of `apply_patch`: each entry, last to first, checked and replaced in the working copy. */
  method ApplyReversed(original: seq<Byte>, entries: seq<PatchEntry>) returns (r: Result<seq<Byte>>)
    ensures r == ApplyEntries(original, entries)
  {
    var result := original;
    var i := |entries|;
    assert entries[..i] == entries;
    while i > 0
      invariant 0 <= i <= |entries|
      invariant ApplyEntries(result, entries[..i]) == ApplyEntries(original, entries)
    {
      var entry := entries[i - 1];
      var actual := Slice(result, entry.offset, entry.offset + entry.originalLength);
      ApplyStep(result, entries, i, entry);
      if actual != entry.originalBytes {
        return Err("Original bytes mismatch");
      }
      result := SliceAssign(result, entry.offset, entry.offset + entry.originalLength, entry.newBytes);
      i := i - 1;
    }
    assert entries[..0] == [];
    return Ok(result);
  }

  /** Applying the first `i` entries applies entry `i - 1`, then the ones before it. */
  lemma ApplyStep(data: seq<Byte>, es: seq<PatchEntry>, i: nat, e: PatchEntry)
    requires 0 < i <= |es| && e == es[i - 1]
    ensures Slice(data, e.offset, e.offset + e.originalLength) != e.originalBytes ==>
      ApplyEntries(data, es[..i]) == Err("Original bytes mismatch")
    ensures Slice(data, e.offset, e.offset + e.originalLength) == e.originalBytes ==>
      ApplyEntries(data, es[..i])
      == ApplyEntries(SliceAssign(data, e.offset, e.offset + e.originalLength, e.newBytes), es[..i - 1])
  {
    assert es[..i][..i - 1] == es[..i - 1];
  }

  // ---------------------------------------------------------------- create_patch

  /** `bytes(b for b in xs if b is not None)`. */
  function Somes(xs: seq<Option<Byte>>): (r: seq<Byte>)
    ensures |r| <= |xs|
    ensures (forall k :: 0 <= k < |xs| ==> xs[k].Some?) ==> |r| == |xs|
  {
    if xs == [] then []
    else Somes(xs[..|xs| - 1]) + (if Last(xs).Some? then [Last(xs).value] else [])
  }

  /** The left bytes of a run of differences, `None` where the original has none. */
  function Lefts(g: seq<ByteDifference>): seq<Option<Byte>>
  {
    seq(|g|, k requires 0 <= k < |g| => g[k].leftByte)
  }

  function Rights(g: seq<ByteDifference>): seq<Option<Byte>>
  {
    seq(|g|, k requires 0 <= k < |g| => g[k].rightByte)
  }

  /**
   * The entry `create_patch` saves for a run starting at `start`. As written
   * (`asWritten`), `original_length` is `len(current_orig)`, which counts the
   * missing original bytes too; otherwise it is the number of original bytes
   * the entry holds.
   */
  function EntryFrom(start: int, orig: seq<Option<Byte>>, repl: seq<Option<Byte>>, asWritten: bool): (e: PatchEntry)
    ensures e.originalBytes == Somes(orig) && e.newBytes == Somes(repl)
    ensures !asWritten ==> e.originalLength == |e.originalBytes|
  {
    PatchEntry(start, if asWritten then |orig| else |Somes(orig)|, Somes(orig), Somes(repl))
  }

  function EntryOf(g: seq<ByteDifference>, asWritten: bool): PatchEntry
    requires g != []
  {
    EntryFrom(g[0].offset, Lefts(g), Rights(g), asWritten)
  }

  function EntriesOf(gs: seq<seq<ByteDifference>>, asWritten: bool): (r: seq<PatchEntry>)
    requires forall k :: 0 <= k < |gs| ==> gs[k] != []
    ensures |r| == |gs|
  {
    if gs == [] then [] else EntriesOf(gs[..|gs| - 1], asWritten) + [EntryOf(Last(gs), asWritten)]
  }

  lemma EntriesOfSnoc(gs: seq<seq<ByteDifference>>, g: seq<ByteDifference>, asWritten: bool)
    requires forall k :: 0 <= k < |gs| ==> gs[k] != []
    requires g != []
    ensures EntriesOf(gs + [g], asWritten) == EntriesOf(gs, asWritten) + [EntryOf(g, asWritten)]
  {
    assert (gs + [g])[..|gs|] == gs;
  }

  /** Every difference of the two byte strings, as `compare_bytes` scans them. */
  function AllDiffs(original: seq<Byte>, modified: seq<Byte>): seq<ByteDifference>
  {
    Diffs(original, modified, 0, false, Max(|original|, |modified|))
  }

  /** The differences `create_patch` gets from `compare_bytes` with the default options: at most the first 1000. */
  function PatchDifferences(original: seq<Byte>, modified: seq<Byte>): (ds: seq<ByteDifference>)
    ensures |ds| <= DefaultBinaryOptions.maxDifferences
    ensures |AllDiffs(original, modified)| <= DefaultBinaryOptions.maxDifferences ==> ds == AllDiffs(original, modified)
  {
    var all := AllDiffs(original, modified);
    all[..Min(|all|, DefaultBinaryOptions.maxDifferences)]
  }

  /** The patch `create_patch` serializes: one entry per run of differences at consecutive offsets, and the two sizes. */
  function PatchOf(original: seq<Byte>, modified: seq<Byte>, asWritten: bool): Patch
  {
    Patch(EntriesOf(Groups(PatchDifferences(original, modified), 1), asWritten), |original|, |modified|)
  }

  /** `create_patch`. */
  function Created(original: seq<Byte>, modified: seq<Byte>, asWritten: bool): Result<seq<Byte>>
  {
    Serialized(PatchOf(original, modified, asWritten))
  }

  /**
   * The state of `create_patch`'s grouping loop after the differences `ds`:
   * the entries of every finished run, and the start, the left bytes and the
   * right bytes of the open run, which ends at `last`.
   */
  predicate Grouped(ds: seq<ByteDifference>, entries: seq<PatchEntry>, start: int,
                    orig: seq<Option<Byte>>, repl: seq<Option<Byte>>, last: int)
  {
    var gs := Groups(ds, 1);
    ds != [] && entries == EntriesOf(gs[..|gs| - 1], false) && start == Last(gs)[0].offset
    && orig == Lefts(Last(gs)) && repl == Rights(Last(gs)) && last == Last(ds).offset
  }

  /** A difference close to the last run joins it. */
  lemma GroupsJoin(p: seq<ByteDifference>, d: ByteDifference, gap: int,
                   init: seq<seq<ByteDifference>>, g: seq<ByteDifference>)
    requires Groups(p, gap) == init + [g] && g != [] && d.offset - Last(g).offset <= gap
    ensures Groups(p + [d], gap) == init + [g + [d]]
  {
    var ds := p + [d];
    assert ds[..|ds| - 1] == p;
    var gs := Groups(p, gap);
    assert gs[..|gs| - 1] == init;
  }

  /** A difference far from the last run opens a new one. */
  lemma GroupsOpen(p: seq<ByteDifference>, d: ByteDifference, gap: int)
    requires p != [] && d.offset - Last(Last(Groups(p, gap))).offset > gap
    ensures Groups(p + [d], gap) == Groups(p, gap) + [[d]]
  {
    var ds := p + [d];
    assert ds[..|ds| - 1] == p;
  }

  /**
   * The runs of `ds` are those of a prefix followed by one last run, whose
   * differences lie at most `gap` apart and more than `gap` after the prefix.
   */
  lemma {:induction false} GroupsSplit(ds: seq<ByteDifference>, gap: int) returns (m: nat)
    requires ds != []
    ensures m < |ds|
    ensures Groups(ds, gap) == Groups(ds[..m], gap) + [ds[m..]]
    ensures m > 0 ==> ds[m].offset - ds[m - 1].offset > gap
    ensures forall k :: m <= k < |ds| - 1 ==> ds[k + 1].offset - ds[k].offset <= gap
  {
    var p := ds[..|ds| - 1];
    var d := ds[|ds| - 1];
    assert ds == p + [d];
    if p == [] {
      m := 0;
      assert ds[..0] == [];
    } else {
      var m' := GroupsSplit(p, gap);
      m := SplitStep(p, d, gap, m');
    }
  }

  /** The step of `GroupsSplit`: the last run of `p` grows by `d`, or `d` starts a run of its own. */
  lemma SplitStep(p: seq<ByteDifference>, d: ByteDifference, gap: int, m': nat) returns (m: nat)
    requires m' < |p|
    requires Groups(p, gap) == Groups(p[..m'], gap) + [p[m'..]]
    requires m' > 0 ==> p[m'].offset - p[m' - 1].offset > gap
    requires forall k :: m' <= k < |p| - 1 ==> p[k + 1].offset - p[k].offset <= gap
    ensures m < |p| + 1
    ensures Groups(p + [d], gap) == Groups((p + [d])[..m], gap) + [(p + [d])[m..]]
    ensures m > 0 ==> (p + [d])[m].offset - (p + [d])[m - 1].offset > gap
    ensures forall k :: m <= k < |p| ==> (p + [d])[k + 1].offset - (p + [d])[k].offset <= gap
  {
    var ds := p + [d];
    var init, g := Groups(p[..m'], gap), p[m'..];
    assert Last(g) == p[|p| - 1];
    if d.offset - Last(g).offset <= gap {
      GroupsJoin(p, d, gap, init, g);
      m := m';
      assert ds[..m] == p[..m'];
      assert ds[m..] == g + [d];
    } else {
      GroupsOpen(p, d, gap);
      m := |p|;
      assert ds[..m] == p;
      assert ds[m..] == [d];
    }
  }

  /** The loop invariant of `GroupEntries` after `i` differences. */
  ghost predicate GroupLoop(ds: seq<ByteDifference>, i: nat, entries: seq<PatchEntry>, start: int,
                            orig: seq<Option<Byte>>, repl: seq<Option<Byte>>, last: int)
    requires 0 < |ds| && i <= |ds|
  {
    (i == 0 ==> entries == [] && orig == [] && repl == [] && start == ds[0].offset && last == start - 1)
    && (i > 0 ==> Grouped(ds[..i], entries, start, orig, repl, last))
  }

  /** The loop step of `GroupEntries`: difference `i` joins the open run or closes it and opens its own. */
  lemma GroupLoopStep(ds: seq<ByteDifference>, i: nat, entries: seq<PatchEntry>, start: int,
                      orig: seq<Option<Byte>>, repl: seq<Option<Byte>>, last: int)
    requires i < |ds| && GroupLoop(ds, i, entries, start, orig, repl, last)
    ensures var d := ds[i];
      d.offset > last + 1 ==>
        orig != [] && GroupLoop(ds, i + 1, entries + [EntryFrom(start, orig, repl, false)],
                                d.offset, [d.leftByte], [d.rightByte], d.offset)
    ensures var d := ds[i];
      d.offset <= last + 1 ==> GroupLoop(ds, i + 1, entries, start, orig + [d.leftByte], repl + [d.rightByte], d.offset)
  {
    var d := ds[i];
    assert ds[..i + 1] == ds[..i] + [d];
    if i == 0 {
      GroupedFirst(d);
      assert ds[..1] == [d];
    } else {
      GroupedStep(ds[..i], d, entries, start, orig, repl, last);
    }
  }

  lemma GroupedFirst(d: ByteDifference)
    ensures Grouped([d], [], d.offset, [d.leftByte], [d.rightByte], d.offset)
  {
    assert [d][..0] == [];
    assert Lefts([d]) == [d.leftByte];
    assert Rights([d]) == [d.rightByte];
  }

  /** One difference more: it opens a new run when it lies more than one byte after the open run. */
  lemma GroupedStep(ds: seq<ByteDifference>, d: ByteDifference, entries: seq<PatchEntry>, start: int,
                    orig: seq<Option<Byte>>, repl: seq<Option<Byte>>, last: int)
    requires Grouped(ds, entries, start, orig, repl, last)
    ensures orig != []
    ensures d.offset > last + 1 ==>
      Grouped(ds + [d], entries + [EntryFrom(start, orig, repl, false)], d.offset, [d.leftByte], [d.rightByte], d.offset)
    ensures d.offset <= last + 1 ==>
      Grouped(ds + [d], entries, start, orig + [d.leftByte], repl + [d.rightByte], d.offset)
  {
    var gs := Groups(ds, 1);
    var init, g := gs[..|gs| - 1], Last(gs);
    GroupsLastLast(ds, 1);
    assert gs == init + [g];
    if d.offset > last + 1 {
      GroupedOpenStep(ds, d, init, g);
    } else {
      GroupedJoinStep(ds, d, init, g);
    }
  }

  /** The last run ends with the last difference. */
  lemma GroupsLastLast(ds: seq<ByteDifference>, gap: int)
    requires ds != []
    ensures Last(Last(Groups(ds, gap))) == Last(ds)
  {
  }

  lemma GroupedOpenStep(ds: seq<ByteDifference>, d: ByteDifference, init: seq<seq<ByteDifference>>, g: seq<ByteDifference>)
    requires ds != [] && Groups(ds, 1) == init + [g] && g != [] && Last(g) == Last(ds)
    requires forall k :: 0 <= k < |init| ==> init[k] != []
    requires d.offset > Last(ds).offset + 1
    ensures Grouped(ds + [d], EntriesOf(init, false) + [EntryFrom(g[0].offset, Lefts(g), Rights(g), false)],
                    d.offset, [d.leftByte], [d.rightByte], d.offset)
  {
    GroupsOpen(ds, d, 1);
    EntriesOfSnoc(init, g, false);
    GroupedOne(ds + [d], init + [g], d);
  }

  lemma GroupedJoinStep(ds: seq<ByteDifference>, d: ByteDifference, init: seq<seq<ByteDifference>>, g: seq<ByteDifference>)
    requires ds != [] && Groups(ds, 1) == init + [g] && g != [] && Last(g) == Last(ds)
    requires forall k :: 0 <= k < |init| ==> init[k] != []
    requires d.offset <= Last(ds).offset + 1
    ensures Grouped(ds + [d], EntriesOf(init, false), g[0].offset, Lefts(g) + [d.leftByte], Rights(g) + [d.rightByte], d.offset)
  {
    GroupsJoin(ds, d, 1, init, g);
    var gs' := init + [g + [d]];
    assert gs'[..|gs'| - 1] == init;
    assert Lefts(g + [d]) == Lefts(g) + [d.leftByte];
    assert Rights(g + [d]) == Rights(g) + [d.rightByte];
  }

  lemma GroupedOne(ds: seq<ByteDifference>, gs: seq<seq<ByteDifference>>, d: ByteDifference)
    requires forall k :: 0 <= k < |gs| ==> gs[k] != []
    requires ds != [] && Last(ds) == d && Groups(ds, 1) == gs + [[d]]
    ensures Grouped(ds, EntriesOf(gs, false), d.offset, [d.leftByte], [d.rightByte], d.offset)
  {
    var gs' := gs + [[d]];
    assert gs'[..|gs'| - 1] == gs;
    assert Lefts([d]) == [d.leftByte];
    assert Rights([d]) == [d.rightByte];
  }

  /** Closing the open run gives the entries of all runs. */
  lemma GroupedDone(ds: seq<ByteDifference>, entries: seq<PatchEntry>, start: int,
                    orig: seq<Option<Byte>>, repl: seq<Option<Byte>>, last: int)
    requires Grouped(ds, entries, start, orig, repl, last)
    ensures entries + [EntryFrom(start, orig, repl, false)] == EntriesOf(Groups(ds, 1), false)
  {
    var gs := Groups(ds, 1);
    assert gs == gs[..|gs| - 1] + [Last(gs)];
    EntriesOfSnoc(gs[..|gs| - 1], Last(gs), false);
  }

  /** `create_patch`: the differences of the two byte strings grouped into entries, then serialized. */
  method CreatePatch(original: seq<Byte>, modified: seq<Byte>) returns (r: Result<seq<Byte>>)
    ensures r == CreatedAll(original, modified)
  {
    var opts := DefaultBinaryOptions.(maxDifferences := Max(|original|, |modified|) + 1);
    var result := CompareBytes(opts, original, modified);
    ghost var all := AllDiffs(original, modified);
    assert result.value.differences == all by {
      assert Min(|all|, Max(1, opts.maxDifferences)) == |all|;
      assert all[..|all|] == all;
    }
    var entries := GroupEntries(result.value.differences);
    r := SerializePatch(entries, |original|, |modified|);
  }

  /**
   * The grouping loop of `create_patch`: a difference more than one byte
   * after the previous one closes the open run as an entry and opens a new
   * run; the last run is closed after the loop.
   */
  method GroupEntries(differences: seq<ByteDifference>) returns (entries: seq<PatchEntry>)
    ensures entries == EntriesOf(Groups(differences, 1), false)
  {
    entries := [];
    if differences != [] {
      var currentStart := differences[0].offset;
      var currentOrig: seq<Option<Byte>> := [];
      var currentNew: seq<Option<Byte>> := [];
      var lastOffset := currentStart - 1;
      for i := 0 to |differences|
        invariant GroupLoop(differences, i, entries, currentStart, currentOrig, currentNew, lastOffset)
      {
        var diff := differences[i];
        GroupLoopStep(differences, i, entries, currentStart, currentOrig, currentNew, lastOffset);
        if diff.offset > lastOffset + 1 {
          if currentOrig != [] || currentNew != [] {
            entries := entries + [EntryFrom(currentStart, currentOrig, currentNew, false)];
          }
          currentStart := diff.offset;
          currentOrig := [];
          currentNew := [];
        }
        currentOrig := currentOrig + [diff.leftByte];
        currentNew := currentNew + [diff.rightByte];
        lastOffset := diff.offset;
      }
      assert differences[..|differences|] == differences;
      GroupedDone(differences, entries, currentStart, currentOrig, currentNew, lastOffset);
      if currentOrig != [] || currentNew != [] {
        entries := entries + [EntryFrom(currentStart, currentOrig, currentNew, false)];
      }
    }
  }

  // ---------------------------------------------------------------- create_patch, then apply_patch

  /** The original before position `t`, the modified data from `t` on. */
  function Mix(original: seq<Byte>, modified: seq<Byte>, t: nat): (r: seq<Byte>)
    ensures t >= Max(|original|, |modified|) ==> r == original
    ensures t == 0 ==> r == modified
  {
    original[..Min(t, |original|)] + modified[Min(t, |modified|)..]
  }

  /** A position below the longer length that is not reported lies in both and holds the same byte. */
  lemma Unreported(original: seq<Byte>, modified: seq<Byte>, i: nat)
    requires i < Max(|original|, |modified|) && !Reported(original, modified, false, i)
    ensures i < |original| && i < |modified| && original[i] == modified[i]
  {
  }

  /** Unreported positions in `[e, b)` change nothing. */
  lemma MixStable(original: seq<Byte>, modified: seq<Byte>, e: nat, b: nat)
    requires e <= b <= Max(|original|, |modified|)
    requires forall i: nat :: e <= i < b ==> !Reported(original, modified, false, i)
    ensures Mix(original, modified, b) == Mix(original, modified, e)
  {
    if e < b {
      Unreported(original, modified, b - 1);
      forall i | e <= i < b
        ensures original[i] == modified[i]
      {
        Unreported(original, modified, i);
      }
      assert original[e..b] == modified[e..b];
      assert original[..b] == original[..e] + original[e..b];
      assert modified[e..] == modified[e..b] + modified[b..];
    }
  }

  /** The present bytes of a run read at consecutive positions from `s` are the data between `s` and the run's end. */
  lemma {:induction false} SomesRun(xs: seq<Option<Byte>>, data: seq<Byte>, s: nat)
    requires s <= |data|
    requires forall k :: 0 <= k < |xs| ==> xs[k] == At(data, s + k)
    ensures Somes(xs) == data[s..Min(s + |xs|, |data|)]
    decreases |xs|
  {
    if xs != [] {
      SomesRun(xs[..|xs| - 1], data, s);
    }
  }

  /**
   * Applying the entry of a run `[s, s + |g|)` that starts inside both files,
   * to data that is the modified data from the run's end on, makes it the
   * modified data from `s` on.
   */
  lemma RunApply(original: seq<Byte>, modified: seq<Byte>, g: seq<ByteDifference>, s: nat)
    requires g != [] && g[0].offset == s && s <= |original| && s <= |modified|
    requires forall k :: 0 <= k < |g| ==>
      g[k].leftByte == At(original, s + k) && g[k].rightByte == At(modified, s + k)
    ensures ApplyEntry(Mix(original, modified, s + |g|), EntryOf(g, false)) == Ok(Mix(original, modified, s))
  {
    EntryOfRun(original, modified, g, s);
    MixApply(original, modified, s, s + |g|);
  }

  /** The entry of such a run replaces the original bytes of `[s, s + |g|)` by the modified ones. */
  lemma EntryOfRun(original: seq<Byte>, modified: seq<Byte>, g: seq<ByteDifference>, s: nat)
    requires g != [] && g[0].offset == s && s <= |original| && s <= |modified|
    requires forall k :: 0 <= k < |g| ==>
      g[k].leftByte == At(original, s + k) && g[k].rightByte == At(modified, s + k)
    ensures EntryOf(g, false)
      == PatchEntry(s, Min(s + |g|, |original|) - s, original[s..Min(s + |g|, |original|)], modified[s..Min(s + |g|, |modified|)])
  {
    SomesRun(Lefts(g), original, s);
    SomesRun(Rights(g), modified, s);
  }

  /** The entry replacing `[s, e)` of the original by `[s, e)` of the modified data, applied where the modified data starts at `e`. */
  lemma MixApply(original: seq<Byte>, modified: seq<Byte>, s: nat, e: nat)
    requires s <= e && s <= |original| && s <= |modified|
    ensures ApplyEntry(Mix(original, modified, e),
      PatchEntry(s, Min(e, |original|) - s, original[s..Min(e, |original|)], modified[s..Min(e, |modified|)]))
      == Ok(Mix(original, modified, s))
  {
    var b, c := Min(e, |original|), Min(e, |modified|);
    var ob, nb := original[s..b], modified[s..c];
    var data := Mix(original, modified, e);
    assert data == original[..b] + modified[c..];
    assert data[s..b] == ob;
    assert data[..s] == original[..s];
    assert data[b..] == modified[c..];
    assert modified[s..] == nb + modified[c..];
    assert Slice(data, s, s + |ob|) == ob;
    assert SliceAssign(data, s, s + |ob|, nb) == original[..s] + (nb + modified[c..]);
  }

  /** `ds` lists, in increasing order and with their bytes, exactly the reported positions below `b`. */
  predicate ListsBelow(original: seq<Byte>, modified: seq<Byte>, ds: seq<ByteDifference>, b: nat)
  {
    Increasing(ds) && CarriesBytes(original, modified, 0, false, ds)
    && (forall k :: 0 <= k < |ds| ==> ds[k].offset < b)
    && (forall i: nat :: i < b && Reported(original, modified, false, i) ==> Lists(ds, i))
  }

  lemma ApplyEntriesSnoc(data: seq<Byte>, es: seq<PatchEntry>, e: PatchEntry, next: seq<Byte>)
    requires ApplyEntry(data, e) == Ok(next)
    ensures ApplyEntries(data, es + [e]) == ApplyEntries(next, es)
  {
    assert (es + [e])[..|es|] == es;
  }

  /** In a run whose differences lie at most one byte apart, offsets rise by one. */
  lemma {:induction false} RunOffset(ds: seq<ByteDifference>, m: nat, k: nat)
    requires Increasing(ds) && m <= k < |ds|
    requires forall j :: m <= j < |ds| - 1 ==> ds[j + 1].offset - ds[j].offset <= 1
    ensures ds[k].offset == ds[m].offset + (k - m)
    decreases k
  {
    if k > m {
      RunOffset(ds, m, k - 1);
    }
  }

  /**
   * The last run starts inside both byte strings: otherwise the position
   * before it would be reported, and listed right before the run.
   */
  lemma RunStart(original: seq<Byte>, modified: seq<Byte>, ds: seq<ByteDifference>, b: nat, m: nat)
    requires b <= Max(|original|, |modified|) && ListsBelow(original, modified, ds, b) && m < |ds|
    requires m > 0 ==> ds[m].offset - ds[m - 1].offset > 1
    ensures ds[m].offset <= |original| && ds[m].offset <= |modified|
  {
    var s := ds[m].offset;
    if s > 0 {
      var i: nat := s - 1;
      forall k | 0 <= k < |ds|
        ensures ds[k].offset != i
      {
        if k < m - 1 {
          assert ds[k].offset < ds[m - 1].offset;
        } else if k > m {
          assert ds[m].offset < ds[k].offset;
        }
      }
      assert !Lists(ds, i);
      Unreported(original, modified, i);
    }
  }

  /** What is left once the last run is taken off: the reported positions below the run's start. */
  lemma PrefixListsBelow(original: seq<Byte>, modified: seq<Byte>, ds: seq<ByteDifference>, b: nat, m: nat)
    requires ListsBelow(original, modified, ds, b) && m < |ds|
    ensures ListsBelow(original, modified, ds[..m], ds[m].offset)
  {
    var p := ds[..m];
    forall j | m < j < |ds|
      ensures ds[m].offset < ds[j].offset
    {
    }
    forall i: nat | i < ds[m].offset && Reported(original, modified, false, i)
      ensures Lists(p, i)
    {
      var k :| 0 <= k < |ds| && ds[k].offset == i;
      assert k < m;
      assert p[k] == ds[k];
    }
    forall k | 0 <= k < |p|
      ensures p[k].offset < ds[m].offset
    {
      assert ds[k].offset < ds[m].offset;
    }
  }

  /** No position from the end of the last run up to `b` is reported. */
  lemma TailQuiet(original: seq<Byte>, modified: seq<Byte>, ds: seq<ByteDifference>, b: nat)
    requires b <= Max(|original|, |modified|) && ListsBelow(original, modified, ds, b) && ds != []
    ensures Last(ds).offset + 1 <= b
    ensures Mix(original, modified, b) == Mix(original, modified, Last(ds).offset + 1)
  {
    var e := Last(ds).offset + 1;
    forall i: nat | e <= i < b
      ensures !Reported(original, modified, false, i)
    {
      forall k | 0 <= k < |ds|
        ensures ds[k].offset != i
      {
        if k < |ds| - 1 {
          assert ds[k].offset < Last(ds).offset;
        }
      }
    }
    MixStable(original, modified, e, b);
  }

  /** The last run `g` of `ds`, at offsets `s, s + 1, ...`, carries the bytes at those positions. */
  lemma RunCarries(original: seq<Byte>, modified: seq<Byte>, ds: seq<ByteDifference>, b: nat, m: nat,
                   g: seq<ByteDifference>, s: int)
    requires ListsBelow(original, modified, ds, b) && m < |ds| && g == ds[m..] && s == ds[m].offset
    requires forall j :: m <= j < |ds| - 1 ==> ds[j + 1].offset - ds[j].offset <= 1
    ensures Last(ds).offset + 1 == s + |g|
    ensures forall k :: 0 <= k < |g| ==>
      g[k].leftByte == At(original, s + k) && g[k].rightByte == At(modified, s + k)
  {
    forall k | 0 <= k < |g|
      ensures g[k].leftByte == At(original, s + k) && g[k].rightByte == At(modified, s + k)
    {
      RunOffset(ds, m, m + k);
      assert g[k] == ds[m + k];
    }
    RunOffset(ds, m, |ds| - 1);
  }

  /** The last run of `ds`, from `GroupsSplit`, applied to the data the runs after it leave. */
  lemma LastRunApply(original: seq<Byte>, modified: seq<Byte>, ds: seq<ByteDifference>, b: nat, m: nat)
    requires b <= Max(|original|, |modified|) && ListsBelow(original, modified, ds, b) && m < |ds|
    requires m > 0 ==> ds[m].offset - ds[m - 1].offset > 1
    requires forall j :: m <= j < |ds| - 1 ==> ds[j + 1].offset - ds[j].offset <= 1
    ensures 0 <= ds[m].offset < b
    ensures ApplyEntry(Mix(original, modified, b), EntryOf(ds[m..], false)) == Ok(Mix(original, modified, ds[m].offset))
    ensures ListsBelow(original, modified, ds[..m], ds[m].offset)
  {
    var g, s := ds[m..], ds[m].offset;
    RunStart(original, modified, ds, b, m);
    RunCarries(original, modified, ds, b, m, g, s);
    TailQuiet(original, modified, ds, b);
    assert Mix(original, modified, b) == Mix(original, modified, s + |g|);
    RunApply(original, modified, g, s);
    PrefixListsBelow(original, modified, ds, b, m);
  }

  /**
   * Applying the entries of the runs of `ds`, last to first, to the data that
   * is the original before `b` and the modified data from `b` on, gives the
   * modified data.
   */
  lemma {:induction false} ApplyCreated(original: seq<Byte>, modified: seq<Byte>, ds: seq<ByteDifference>, b: nat)
    requires b <= Max(|original|, |modified|) && ListsBelow(original, modified, ds, b)
    ensures ApplyEntries(Mix(original, modified, b), EntriesOf(Groups(ds, 1), false)) == Ok(modified)
    decreases |ds|
  {
    if ds == [] {
      MixStable(original, modified, 0, b);
    } else {
      var m := GroupsSplit(ds, 1);
      var g, s := ds[m..], ds[m].offset;
      LastRunApply(original, modified, ds, b, m);
      ApplyCreated(original, modified, ds[..m], s);
      EntriesOfSnoc(Groups(ds[..m], 1), g, false);
      ApplyEntriesSnoc(Mix(original, modified, b), EntriesOf(Groups(ds[..m], 1), false), EntryOf(g, false),
        Mix(original, modified, s));
    }
  }

  /** The entries of short runs at offsets below `hi` fit their fields; the corrected ones record their original bytes exactly. */
  lemma {:induction false} EntriesFit(ds: seq<ByteDifference>, hi: int, asWritten: bool)
    requires |ds| < U16 && hi <= U64
    requires forall k :: 0 <= k < |ds| ==> 0 <= ds[k].offset < hi
    ensures |Groups(ds, 1)| <= |ds|
    ensures AllFit(EntriesOf(Groups(ds, 1), asWritten))
    ensures !asWritten ==> AllRecorded(EntriesOf(Groups(ds, 1), asWritten))
    decreases |ds|
  {
    if ds != [] {
      var m := GroupsSplit(ds, 1);
      var init, g := Groups(ds[..m], 1), ds[m..];
      RangePrefix(ds, m, hi);
      EntriesFit(ds[..m], hi, asWritten);
      EntriesOfSnoc(init, g, asWritten);
      EntryOfFits(ds, m, hi, asWritten);
      AllFitSnoc(EntriesOf(init, asWritten), EntryOf(g, asWritten));
      if !asWritten {
        AllRecordedSnoc(EntriesOf(init, asWritten), EntryOf(g, asWritten));
      }
    }
  }

  ghost predicate AllFit(es: seq<PatchEntry>)
  {
    forall k :: 0 <= k < |es| ==> EntryFits(es[k])
  }

  ghost predicate AllRecorded(es: seq<PatchEntry>)
  {
    forall k :: 0 <= k < |es| ==> |es[k].originalBytes| == es[k].originalLength
  }

  lemma AllFitSnoc(es: seq<PatchEntry>, e: PatchEntry)
    requires AllFit(es) && EntryFits(e)
    ensures AllFit(es + [e])
  {
    assert forall k :: 0 <= k < |es| ==> (es + [e])[k] == es[k];
  }

  lemma AllRecordedSnoc(es: seq<PatchEntry>, e: PatchEntry)
    requires AllRecorded(es) && |e.originalBytes| == e.originalLength
    ensures AllRecorded(es + [e])
  {
    assert forall k :: 0 <= k < |es| ==> (es + [e])[k] == es[k];
  }

  lemma RangePrefix(ds: seq<ByteDifference>, m: nat, hi: int)
    requires m <= |ds|
    requires forall k :: 0 <= k < |ds| ==> 0 <= ds[k].offset < hi
    ensures forall k :: 0 <= k < m ==> 0 <= ds[..m][k].offset < hi
  {
  }

  /** The entry of the last run `ds[m..]` fits its fields. */
  lemma EntryOfFits(ds: seq<ByteDifference>, m: nat, hi: int, asWritten: bool)
    requires m < |ds| < U16 && hi <= U64
    requires forall k :: 0 <= k < |ds| ==> 0 <= ds[k].offset < hi
    ensures EntryFits(EntryOf(ds[m..], asWritten))
    ensures !asWritten ==> |EntryOf(ds[m..], asWritten).originalBytes| == EntryOf(ds[m..], asWritten).originalLength
  {
    var g := ds[m..];
    assert g[0] == ds[m];
  }

  /** Where every original byte is present, the entries as written are the corrected ones. */
  lemma {:induction false} AsWrittenAgrees(ds: seq<ByteDifference>)
    requires forall k :: 0 <= k < |ds| ==> ds[k].leftByte.Some?
    ensures EntriesOf(Groups(ds, 1), true) == EntriesOf(Groups(ds, 1), false)
    decreases |ds|
  {
    if ds != [] {
      var m := GroupsSplit(ds, 1);
      AsWrittenAgrees(ds[..m]);
      EntriesOfSnoc(Groups(ds[..m], 1), ds[m..], true);
      EntriesOfSnoc(Groups(ds[..m], 1), ds[m..], false);
      EntryAgrees(ds, m);
    }
  }

  lemma EntryAgrees(ds: seq<ByteDifference>, m: nat)
    requires m < |ds| && forall k :: 0 <= k < |ds| ==> ds[k].leftByte.Some?
    ensures EntryOf(ds[m..], true) == EntryOf(ds[m..], false)
  {
    var g := ds[m..];
    assert forall k :: 0 <= k < |Lefts(g)| ==> Lefts(g)[k].Some?;
  }

  /** With sizes that fit 64 bits, every field of the created patch fits, and the corrected entries record their original bytes. */
  lemma PatchOfFits(original: seq<Byte>, modified: seq<Byte>, asWritten: bool)
    requires |original| < U64 && |modified| < U64
    ensures Fits(PatchOf(original, modified, asWritten))
    ensures !asWritten ==> WellFormed(PatchOf(original, modified, asWritten))
  {
    var ds := PatchDifferences(original, modified);
    EntriesFit(ds, Max(|original|, |modified|), asWritten);
  }

  /** `create_patch` raises `struct.error` exactly when a size does not fit 64 bits. */
  lemma CreatedOk(original: seq<Byte>, modified: seq<Byte>, asWritten: bool)
    ensures Created(original, modified, asWritten).Ok? <==> |original| < U64 && |modified| < U64
  {
    if |original| < U64 && |modified| < U64 {
      PatchOfFits(original, modified, asWritten);
    }
  }

  /** `compare_bytes` lists exactly the reported positions, in order and with their bytes. */
  lemma AllDiffsListed(original: seq<Byte>, modified: seq<Byte>)
    ensures ListsBelow(original, modified, AllDiffs(original, modified), Max(|original|, |modified|))
  {
    DiffsExact(original, modified, 0, false, Max(|original|, |modified|));
  }

  /**
   * `apply_patch(original, create_patch(original, modified)) == modified`
   * for the corrected `create_patch`, whenever the sizes fit 64 bits and at
   * most `max_differences` bytes differ.
   */
  lemma CreateApplyRoundTrip(original: seq<Byte>, modified: seq<Byte>)
    requires |original| < U64 && |modified| < U64
    requires |AllDiffs(original, modified)| <= DefaultBinaryOptions.maxDifferences
    ensures Created(original, modified, false).Ok?
    ensures Applied(original, Created(original, modified, false).value) == Ok(modified)
  {
    var n := Max(|original|, |modified|);
    AllDiffsListed(original, modified);
    ApplyCreated(original, modified, AllDiffs(original, modified), n);
    var p := PatchOf(original, modified, false);
    PatchOfFits(original, modified, false);
    SerializeRoundTrip(p);
    assert ApplyEntries(original, p.entries) == Ok(modified);
  }

  /**
   * The same round trip for `create_patch` as written, when the modified
   * data is no longer than the original: there its entries are the corrected ones.
   */
  lemma CreateApplyRoundTripAsWritten(original: seq<Byte>, modified: seq<Byte>)
    requires |modified| <= |original| < U64
    requires |AllDiffs(original, modified)| <= DefaultBinaryOptions.maxDifferences
    ensures Created(original, modified, true) == Created(original, modified, false)
    ensures Created(original, modified, true).Ok?
    ensures Applied(original, Created(original, modified, true).value) == Ok(modified)
  {
    AllDiffsListed(original, modified);
    var all := AllDiffs(original, modified);
    assert forall k :: 0 <= k < |all| ==> all[k].leftByte == At(original, all[k].offset);
    AsWrittenAgrees(all);
    CreateApplyRoundTrip(original, modified);
  }

  /** As written, growing an empty file by one byte records `original_length` 1 and no original byte. */
  lemma GrowthPatch()
    ensures PatchOf([], [1], true) == Patch([PatchEntry(0, 1, [], [1])], 0, 1)
  {
    var d := ByteDifference(0, None, Some(1));
    assert Diffs([], [1], 0, false, 1) == [d] by {
      assert Diffs([], [1], 0, false, 0) == [];
    }
    assert PatchDifferences([], [1]) == [d];
    assert Groups([d], 1) == [[d]];
    var none: seq<Option<Byte>> := [None];
    var one: seq<Option<Byte>> := [Some(1)];
    assert Somes(none) == [] by {
      assert none[..0] == [];
    }
    assert Somes(one) == [1] by {
      assert one[..0] == [];
    }
    assert Lefts([d]) == none && Rights([d]) == one;
    assert EntriesOf([[d]], true) == [PatchEntry(0, 1, [], [1])];
  }

  /** Reading that patch back takes the new byte for the original byte, and finds no new byte. */
  lemma GrowthPatchRead(p: Patch)
    requires p == Patch([PatchEntry(0, 1, [], [1])], 0, 1)
    ensures Fits(p)
    ensures Deserialized(Serialized(p).value) == Ok(Patch([PatchEntry(0, 1, [1], [])], 0, 1))
  {
    var e := p.entries[0];
    assert EntryFits(e);
    var bytes := Header(p) + EntriesBytes([e]);
    var read := PatchEntry(0, 1, [1], []);
    var f := FixedFields(e);
    assert EntriesBytes([e]) == f + [1] by {
      assert [e][1..] == [];
    }
    GrowthEntryRead(Header(p), f, bytes, read);
    DecodeEntryAt(bytes, 28, 1, read, 42);
    assert [read] + [] == [read];
    assert DecodeEntries(bytes, 28, 1) == Ok([read]);
    HeaderReads(p);
    assert bytes[..8] == Magic;
    assert bytes[8..16] == Header(p)[8..16] && bytes[16..24] == Header(p)[16..24] && bytes[24..28] == Header(p)[24..28];
    DeserializedFrom(bytes, Patch([read], 0, 1));
  }

  /** The entry read from a header, fixed fields saying offset 0, original length 1 and one new byte, and the one byte 1. */
  lemma GrowthEntryRead(h: seq<Byte>, f: seq<Byte>, bytes: seq<Byte>, read: PatchEntry)
    requires |h| == 28 && |f| == 12 && bytes == h + f + [1]
    requires LEValue(f[..8]) == 0 && LEValue(f[8..10]) == 1 && LEValue(f[10..]) == 1
    requires read == PatchEntry(0, 1, [1], [])
    ensures |bytes| >= 40 && ReadEntry(bytes, 28) == (read, 42)
  {
    assert bytes[28..36] == f[..8] && bytes[36..38] == f[8..10] && bytes[38..40] == f[10..];
    assert |bytes| == 41 && bytes[40..41] == [1];
  }

  /**
   * As written, growing an empty file by one byte gives a patch that
   * `apply_patch` rejects: the entry records `original_length` 1 but no
   * original byte, so the reader takes the new byte for the original one.
   */
  lemma GrowthPatchRejected()
    ensures Created([], [1], true).Ok?
    ensures Applied([], Created([], [1], true).value) == Err("Original bytes mismatch")
  {
    GrowthPatch();
    var p := PatchOf([], [1], true);
    GrowthPatchRead(p);
    var read := PatchEntry(0, 1, [1], []);
    assert ApplyEntry([], read) == Err("Original bytes mismatch");
    assert ApplyEntries([], [read]) == Err("Original bytes mismatch");
  }

  // ---------------------------------------------------------------- the difference cap

  /** The differences below `n` depend only on the bytes below `n`. */
  lemma {:induction false} DiffsSameBelow(o: seq<Byte>, m: seq<Byte>, m2: seq<Byte>, n: nat)
    requires forall i: nat :: i < n ==> At(m, i) == At(m2, i)
    ensures Diffs(o, m, 0, false, n) == Diffs(o, m2, 0, false, n)
  {
    if n > 0 {
      DiffsSameBelow(o, m, m2, n - 1);
      assert DiffAt(o, m, 0, false, n - 1) == DiffAt(o, m2, 0, false, n - 1);
    }
  }

  /** Where the two sides agree from `b` on, no difference is found past `b`. */
  lemma {:induction false} DiffsQuietFrom(o: seq<Byte>, m: seq<Byte>, b: nat, n: nat)
    requires b <= n
    requires forall i: nat :: b <= i < n ==> At(o, i) == At(m, i)
    ensures Diffs(o, m, 0, false, n) == Diffs(o, m, 0, false, b)
  {
    if n > b {
      DiffsQuietFrom(o, m, b, n - 1);
      assert DiffAt(o, m, 0, false, n - 1) == [];
    }
  }

  /** The differences below `b` are the first ones of those below `n`; the rest lie at `b` or later. */
  lemma {:induction false} DiffsPrefix(o: seq<Byte>, m: seq<Byte>, b: nat, n: nat)
    requires b <= n
    ensures |Diffs(o, m, 0, false, b)| <= |Diffs(o, m, 0, false, n)|
    ensures Diffs(o, m, 0, false, n)[..|Diffs(o, m, 0, false, b)|] == Diffs(o, m, 0, false, b)
    ensures forall k :: |Diffs(o, m, 0, false, b)| <= k < |Diffs(o, m, 0, false, n)| ==>
      Diffs(o, m, 0, false, n)[k].offset >= b
  {
    if n > b {
      DiffsPrefix(o, m, b, n - 1);
      var p, q := Diffs(o, m, 0, false, n - 1), DiffAt(o, m, 0, false, n - 1);
      assert Diffs(o, m, 0, false, n) == p + q;
      assert (p + q)[..|p|] == p;
    }
  }

  /** In an increasing list, the entries before the one at offset `b` are those below `b`. */
  lemma PrefixBelow(all: seq<ByteDifference>, below: seq<ByteDifference>, cap: nat, b: int)
    requires Increasing(all) && |below| <= |all| && all[..|below|] == below
    requires forall k :: 0 <= k < |below| ==> below[k].offset < b
    requires forall k :: |below| <= k < |all| ==> all[k].offset >= b
    requires cap < |all| && all[cap].offset == b
    ensures below == all[..cap]
  {
    assert |below| <= cap by {
      assert forall k :: 0 <= k < |below| ==> all[k].offset < b;
    }
    assert |below| < |all| ==> all[|below|].offset >= b;
  }

  /** The first `max_differences` differences are exactly those below the offset of the next one. */
  lemma {:induction false} CapSplit(o: seq<Byte>, m: seq<Byte>)
    requires |AllDiffs(o, m)| > DefaultBinaryOptions.maxDifferences
    ensures var all := AllDiffs(o, m);
      Diffs(o, m, 0, false, all[DefaultBinaryOptions.maxDifferences].offset) == all[..DefaultBinaryOptions.maxDifferences]
  {
    var all, cap := AllDiffs(o, m), DefaultBinaryOptions.maxDifferences;
    var n := Max(|o|, |m|);
    var b := all[cap].offset;
    DiffsExact(o, m, 0, false, n);
    DiffsPrefix(o, m, b, n);
    var below := Diffs(o, m, 0, false, b);
    PrefixBelow(all, below, cap, b);
  }

  /**
   * As written, `create_patch` keeps only the first `max_differences` (1000)
   * differences that `compare_bytes` reports. For data of equal length with
   * more, the patch applies without error, yet gives back the modified bytes
   * only up to the first difference left out, and the original bytes from there.
   */
  lemma CappedPatchLosesDifferences(original: seq<Byte>, modified: seq<Byte>)
    requires |original| == |modified| < U64
    requires |AllDiffs(original, modified)| > DefaultBinaryOptions.maxDifferences
    ensures var b := AllDiffs(original, modified)[DefaultBinaryOptions.maxDifferences].offset;
      0 <= b < |modified|
      && Created(original, modified, true).Ok?
      && Applied(original, Created(original, modified, true).value) == Ok(modified[..b] + original[b..])
      && modified[..b] + original[b..] != modified
  {
    var all, cap := AllDiffs(original, modified), DefaultBinaryOptions.maxDifferences;
    var n := |original|;
    var b := all[cap].offset;
    DiffsExact(original, modified, 0, false, n);
    assert 0 <= b < n;
    var m2 := modified[..b] + original[b..];
    assert |m2| == n;
    DiffsSameBelow(original, modified, m2, b);
    DiffsQuietFrom(original, m2, b, n);
    CapSplit(original, modified);
    assert AllDiffs(original, m2) == all[..cap];
    assert PatchDifferences(original, m2) == PatchDifferences(original, modified);
    assert PatchOf(original, m2, true) == PatchOf(original, modified, true);
    CreateApplyRoundTripAsWritten(original, m2);
    assert Reported(original, modified, false, b);
    assert m2[b] != modified[b];
  }

  /** `create_patch` over every difference, not only the first `max_differences`. */
  function PatchOfAll(original: seq<Byte>, modified: seq<Byte>): Patch
  {
    Patch(EntriesOf(Groups(AllDiffs(original, modified), 1), false), |original|, |modified|)
  }

  function CreatedAll(original: seq<Byte>, modified: seq<Byte>): Result<seq<Byte>>
  {
    Serialized(PatchOfAll(original, modified))
  }

  /** The corrected entries record every original byte they stand for. */
  lemma {:induction false} CorrectedRecorded(gs: seq<seq<ByteDifference>>)
    requires forall k :: 0 <= k < |gs| ==> gs[k] != []
    ensures AllRecorded(EntriesOf(gs, false))
  {
    if gs != [] {
      CorrectedRecorded(gs[..|gs| - 1]);
      AllRecordedSnoc(EntriesOf(gs[..|gs| - 1], false), EntryOf(Last(gs), false));
    }
  }

  /**
   * The patch over every difference: it can be written whenever the sizes fit
   * 64 bits and at most 65535 bytes differ; whenever it is written it
   * gives back the modified data, and under the cap it is the patch
   * `create_patch` writes.
   */
  lemma CreateAllApplyRoundTrip(original: seq<Byte>, modified: seq<Byte>)
    ensures |original| < U64 && |modified| < U64 && |AllDiffs(original, modified)| < U16 ==>
      CreatedAll(original, modified).Ok?
    ensures CreatedAll(original, modified).Ok? ==>
      Applied(original, CreatedAll(original, modified).value) == Ok(modified)
    ensures |AllDiffs(original, modified)| <= DefaultBinaryOptions.maxDifferences ==>
      CreatedAll(original, modified) == Created(original, modified, false)
  {
    var all := AllDiffs(original, modified);
    var n := Max(|original|, |modified|);
    var p := PatchOfAll(original, modified);
    if |original| < U64 && |modified| < U64 && |all| < U16 {
      AllDiffsListed(original, modified);
      EntriesFit(all, n, false);
    }
    if CreatedAll(original, modified).Ok? {
      AllDiffsListed(original, modified);
      ApplyCreated(original, modified, all, n);
      CorrectedRecorded(Groups(all, 1));
      SerializeRoundTrip(p);
      assert ApplyEntries(original, p.entries) == Ok(modified);
    }
  }
}
