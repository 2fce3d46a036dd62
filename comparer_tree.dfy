/**
 * The tree `FolderComparer` builds from its flat results (app/core/folder/comparer.py,
 * `_build_tree`, `_ensure_parent_nodes`, `_sort_tree`). The builder's `nodes`
 * dictionary is modelled as a table keyed by relative path, holding each node's
 * result and the paths of its children in order; `ToNode` reads the finished
 * table as a `FolderCompareNode` tree. A node's identity is its path.
 */
module FolderCompareTree {
  import opened Wrappers
  import opened TextUtil
  import opened Models
  import opened Ordering

  /**
   * A relative POSIX path as the scanner produces it: non-empty, with no empty
   * and no `.` component.
   */
  predicate WfPath(p: string)
  {
    forall k :: 0 <= k < |SplitOn(p, '/')| ==> SplitOn(p, '/')[k] != "" && SplitOn(p, '/')[k] != "."
  }

  /** `str(Path(p).parent)`, with "." read as "": everything before the last `/`. */
  function ParentPath(p: string): (q: string)
    ensures p != "" ==> |q| < |p| && q == p[..|q|]
  {
    if '/' in p then p[..LastIndex(p, '/')] else ""
  }

  /** `a` names a directory that contains `p`, at any depth. */
  predicate ProperAncestor(a: string, p: string)
  {
    |a| < |p| && p[..|a|] == a && p[|a|] == '/'
  }

  /** The `nodes` dictionary together with each node's `children` list, by path. */
  datatype NodeTable = NodeTable(entries: map<string, FileCompareResult>, kids: map<string, seq<string>>)

  /**
   * The shape the builder keeps: the root "" is present; every child is a
   * non-root node filed under its parent path; every non-root node's parent is
   * present and lists it exactly once.
   */
  predicate TableOk(t: NodeTable)
  {
    t.entries.Keys == t.kids.Keys && "" in t.entries && KidsFiled(t) && ParentsList(t)
  }

  /** Every child is a non-root node filed under its parent path. */
  predicate KidsFiled(t: NodeTable)
  {
    forall q, c :: q in t.kids && c in t.kids[q] ==> c in t.entries && c != "" && ParentPath(c) == q
  }

  /** Every non-root node's parent is present and lists it exactly once. */
  predicate ParentsList(t: NodeTable)
  {
    forall c :: c in t.entries && c != "" ==> ParentPath(c) in t.kids && Count(t.kids[ParentPath(c)], c) == 1
  }

  /** The root's result: an IDENTICAL entry for "" without metadata. */
  const RootResult := FileCompareResult("", None, None, FileStatus.Identical, Content, None)

  /** The table holding only the root. */
  const EmptyTable := NodeTable(map["" := RootResult], map["" := []])

  /** The result `_ensure_parent_nodes` gives a directory missing from the results. */
  function DirResult(p: string, name: string): FileCompareResult
  {
    var m := FileMetadata(p, name, Directory, 0, None, false, None);
    FileCompareResult(p, Some(m), Some(m), FileStatus.Identical, Content, None)
  }

  /** Files a new node `c` and appends it to its parent's children. */
  function AddNode(t: NodeTable, c: string, res: FileCompareResult): NodeTable
    requires c != "" && ParentPath(c) in t.kids
  {
    var q := ParentPath(c);
    NodeTable(t.entries[c := res], t.kids[c := []][q := t.kids[q] + [c]])
  }

  lemma CountSnoc<T>(s: seq<T>, x: T)
    ensures forall y :: Count(s + [x], y) == Count(s, y) + (if x == y then 1 else 0)
  {
    assert (s + [x])[..|s|] == s;
  }

  /** Filing a node that is new and whose parent is present keeps the table's shape. */
  lemma AddNodeOk(t: NodeTable, c: string, res: FileCompareResult)
    requires TableOk(t) && c != "" && c !in t.entries && ParentPath(c) in t.entries
    ensures TableOk(AddNode(t, c, res))
    ensures AddNode(t, c, res).entries == t.entries[c := res]
  {
    var q := ParentPath(c);
    var t' := AddNode(t, c, res);
    assert c !in t.kids[q];
    AddKidsFiled(t, t', c, q);
    AddParentsList(t, t', c, q);
  }

  lemma AddKidsFiled(t: NodeTable, t': NodeTable, c: string, q: string)
    requires KidsFiled(t) && c != "" && q == ParentPath(c) && q in t.kids && c !in t.kids
    requires t'.entries.Keys == t.entries.Keys + {c}
    requires t'.kids == t.kids[c := []][q := t.kids[q] + [c]]
    ensures KidsFiled(t')
  {
    forall q', d | q' in t'.kids && d in t'.kids[q']
      ensures d in t'.entries && d != "" && ParentPath(d) == q'
    {
      if q' == q {
        if d != c {
          assert d in t.kids[q];
        }
      } else {
        assert q' != c && t'.kids[q'] == t.kids[q'];
      }
    }
  }

  lemma AddParentsList(t: NodeTable, t': NodeTable, c: string, q: string)
    requires ParentsList(t) && t.entries.Keys == t.kids.Keys
    requires c != "" && q == ParentPath(c) && q in t.kids && c !in t.kids && c !in t.kids[q]
    requires t'.entries.Keys == t.entries.Keys + {c}
    requires t'.kids == t.kids[c := []][q := t.kids[q] + [c]]
    ensures ParentsList(t')
  {
    CountSnoc(t.kids[q], c);
    forall d | d in t'.entries && d != ""
      ensures ParentPath(d) in t'.kids && Count(t'.kids[ParentPath(d)], d) == 1
    {
      if d != c {
        var pd := ParentPath(d);
        assert pd in t.kids && Count(t.kids[pd], d) == 1;
        if pd != q {
          assert pd != c && t'.kids[pd] == t.kids[pd];
        }
      }
    }
  }

  lemma AncestorExtend(a: string, p: string, part: string)
    requires a == p || ProperAncestor(a, p)
    ensures ProperAncestor(a, p + "/" + part)
    ensures ProperAncestor(p, p + "/" + part)
  {
    var x := p + "/" + part;
    assert x[..|p|] == p;
    if a != p {
      assert x[..|a|] == p[..|a|];
    }
  }

  /** The parent of `p + "/" + part` is `p` when `part` has no `/`. */
  lemma ParentOfJoin(p: string, part: string)
    requires '/' !in part
    ensures ParentPath(p + "/" + part) == p
  {
    var x := p + "/" + part;
    assert x[|p|] == '/';
    assert x[|p| + 1..] == part;
    LastIndexAt(x, '/', |p|);
  }

  lemma PathNameOfPart(part: string)
    requires part != "" && part != "." && '/' !in part
    ensures PathName(part) == part
  {
    assert SplitOn(part, '/') == [part];
    assert KeepNamed([part]) == [part] + KeepNamed([]);
  }

  /**
   * What `t` adds to `t0`: old nodes are unchanged, and every new node is an
   * IDENTICAL directory that is `top` or lies above it.
   */
  predicate Grown(e0: map<string, FileCompareResult>, e: map<string, FileCompareResult>, top: string)
  {
    (forall k :: k in e0 ==> k in e && e[k] == e0[k]) &&
    (forall k :: k in e && k !in e0 ==> e[k] == DirResult(k, PathName(k)) && (k == top || ProperAncestor(k, top)))
  }

  /** One component of `_ensure_parent_nodes`: file `current` unless it is present. */
  function EnsureOne(t: NodeTable, current: string, part: string): NodeTable
    requires current != "" && ParentPath(current) in t.kids
  {
    if current in t.entries then t else AddNode(t, current, DirResult(current, part))
  }

  lemma EnsureShape(t: NodeTable, current: string, part: string)
    requires TableOk(t) && current != "" && ParentPath(current) in t.entries
    ensures TableOk(EnsureOne(t, current, part)) && current in EnsureOne(t, current, part).entries
    ensures EnsureOne(t, current, part).entries == t.entries ||
      (current !in t.entries && EnsureOne(t, current, part).entries == t.entries[current := DirResult(current, part)])
  {
    if current !in t.entries {
      AddNodeOk(t, current, DirResult(current, part));
    }
  }

  lemma GrownStep(t0: NodeTable, e: map<string, FileCompareResult>, e': map<string, FileCompareResult>,
                  prev: string, current: string, part: string)
    requires "" in t0.entries && current != "" && PathName(current) == part
    requires e' == e || (current !in e && e' == e[current := DirResult(current, part)])
    requires Grown(t0.entries, e, prev)
    requires prev != "" ==> ProperAncestor(prev, current)
    requires prev == "" ==> e == t0.entries
    ensures Grown(t0.entries, e', current)
  {
    forall k | k in e' && k !in t0.entries
      ensures k == current || ProperAncestor(k, current)
    {
      if k != current {
        assert k in e;
        if k != prev {
          assert ProperAncestor(k, prev);
          assert current[..|prev|] == prev;
          assert current[..|k|] == prev[..|k|];
        }
      }
    }
  }

  /** The next prefix `_ensure_parent_nodes` visits, and how it relates to the previous one. */
  lemma NextPrefix(parts: seq<string>, j: nat, prev: string, current: string)
    requires j < |parts| && forall k :: 0 <= k < |parts| ==> parts[k] != "" && parts[k] != "." && '/' !in parts[k]
    requires j == 0 ==> prev == "" && current == parts[0]
    requires j > 0 ==> prev == Join(parts[..j], "/") && current == prev + "/" + parts[j]
    ensures current == Join(parts[..j + 1], "/") && current != ""
    ensures ParentPath(current) == prev && PathName(current) == parts[j]
    ensures prev != "" ==> ProperAncestor(prev, current)
  {
    var part := parts[j];
    if j == 0 {
      PathNameOfPart(part);
      assert parts[..1] == [part];
    } else {
      JoinSnoc(parts[..j], "/", part);
      assert parts[..j + 1] == parts[..j] + [part];
      ParentOfJoin(prev, part);
      PathNameOfJoin(prev, part);
      AncestorExtend(prev, prev, part);
    }
  }

  /**
   * `_ensure_parent_nodes`: walks the components of `path` from the top and
   * files an IDENTICAL directory node for each prefix not yet present. On
   * return `path` is present; old nodes are unchanged and every new node is
   * `path` or a directory above it.
   */
  method EnsureParentNodes(t0: NodeTable, path: string) returns (t: NodeTable)
    requires TableOk(t0) && path != "" && WfPath(path)
    ensures TableOk(t) && path in t.entries
    ensures Grown(t0.entries, t.entries, path)
  {
    var parts := SplitOn(path, '/');
    t := t0;
    var current := "";
    for j := 0 to |parts|
      invariant TableOk(t) && current in t.entries && Grown(t0.entries, t.entries, current)
      invariant j == 0 ==> current == "" && t == t0
      invariant j > 0 ==> current == Join(parts[..j], "/") && current != ""
    {
      var part := parts[j];
      var prev := current;
      current := if current != "" then current + "/" + part else part;
      NextPrefix(parts, j, prev, current);
      EnsureShape(t, current, part);
      GrownStep(t0, t.entries, EnsureOne(t, current, part).entries, prev, current, part);
      t := EnsureOne(t, current, part);
    }
    SplitOnJoin(path, '/');
    assert parts[..|parts|] == parts;
  }

  /** The keys `_build_tree` walks: `sorted(results.keys())`, none of them the root. */
  ghost predicate SortedKeys(results: map<string, FileCompareResult>, keys: seq<string>)
  {
    StrictlySorted(keys) && (forall y :: y in keys <==> y in results) && "" !in results
  }

  /**
   * The table after the first `i` keys: it has the shape the builder keeps, the
   * root is untouched, each key done so far holds its result, and every other
   * node is a synthetic directory above a key done so far.
   */
  ghost predicate Built(results: map<string, FileCompareResult>, keys: seq<string>, i: nat, t: NodeTable)
  {
    i <= |keys| && TableOk(t) && t.entries[""] == RootResult &&
    (forall m :: 0 <= m < i ==> keys[m] in results && keys[m] in t.entries && t.entries[keys[m]] == results[keys[m]]) &&
    (forall k :: k in t.entries && k != "" ==>
      (exists m :: 0 <= m < i && keys[m] == k) ||
      (k !in results && t.entries[k] == DirResult(k, PathName(k)) && exists m :: 0 <= m < i && ProperAncestor(k, keys[m])))
  }

  lemma WfParent(p: string)
    requires WfPath(p) && '/' in p
    ensures WfPath(ParentPath(p)) && ParentPath(p) != ""
    ensures ProperAncestor(ParentPath(p), p)
  {
    var i := LastIndex(p, '/');
    assert SplitOn(p, '/') == SplitOn(p[..i], '/') + [p[i + 1..]];
    var pieces := SplitOn(p[..i], '/');
    assert forall k :: 0 <= k < |pieces| ==> pieces[k] == SplitOn(p, '/')[k];
    assert pieces[0] == SplitOn(p, '/')[0];
  }

  lemma AncestorTrans(a: string, b: string, c: string)
    requires ProperAncestor(a, b) && ProperAncestor(b, c)
    ensures ProperAncestor(a, c)
  {
    assert c[..|a|] == c[..|b|][..|a|];
    assert b[|a|] == c[..|b|][|a|];
  }

  /** A directory sorts before everything inside it. */
  lemma AncestorLess(a: string, p: string)
    requires ProperAncestor(a, p)
    ensures StrLess(a, p)
  {
    StrLessPrefix(a, p);
  }

  /** Every node present before key `i` sorts before it. */
  lemma OldLess(results: map<string, FileCompareResult>, keys: seq<string>, i: nat, t: NodeTable, k: string)
    requires SortedKeys(results, keys) && Built(results, keys, i, t) && i < |keys| && k in t.entries
    ensures StrLess(k, keys[i])
  {
    assert keys[i] in results;
    if k == "" {
      assert keys[i] != "";
    } else if m :| 0 <= m < i && keys[m] == k {
    } else {
      var m :| 0 <= m < i && ProperAncestor(k, keys[m]);
      AncestorLess(k, keys[m]);
      StrLessTransitive(k, keys[m], keys[i]);
    }
  }

  lemma ParentAncestor(p: string)
    requires '/' in p
    ensures ProperAncestor(ParentPath(p), p)
  {
  }

  /** The directories `_ensure_parent_nodes` files for `p` are above `p`. */
  lemma NewAbove(t: NodeTable, t1: NodeTable, p: string, k: string)
    requires "" in t.entries && Grown(t.entries, t1.entries, ParentPath(p)) && k in t1.entries && k !in t.entries
    ensures ProperAncestor(k, p)
  {
    var q := ParentPath(p);
    if '/' in p {
      ParentAncestor(p);
      if k != q {
        AncestorTrans(k, q, p);
      }
    }
  }

  /** A directory above key `i` that is not yet in the table is not a key. */
  lemma NotKey(results: map<string, FileCompareResult>, keys: seq<string>, i: nat, t: NodeTable, k: string)
    requires SortedKeys(results, keys) && Built(results, keys, i, t) && i < |keys|
    requires ProperAncestor(k, keys[i]) && k !in t.entries
    ensures k !in results
  {
    if k in results {
      var m :| 0 <= m < |keys| && keys[m] == k;
      if m > i {
        AncestorLess(k, keys[i]);
        StrLessTransitive(keys[i], k, keys[i]);
        StrLessIrreflexive(keys[i]);
      }
    }
  }

  /** Before key `i` is filed, every node sorts before it; so it is new. */
  lemma AllLess(results: map<string, FileCompareResult>, keys: seq<string>, i: nat, t: NodeTable, t1: NodeTable)
    requires SortedKeys(results, keys) && Built(results, keys, i, t) && i < |keys|
    requires Grown(t.entries, t1.entries, ParentPath(keys[i]))
    ensures keys[i] !in t1.entries && keys[i] != ""
  {
    var p := keys[i];
    assert p in results;
    forall k | k in t1.entries ensures StrLess(k, p) {
      if k in t.entries {
        OldLess(results, keys, i, t, k);
      } else {
        NewAbove(t, t1, p, k);
        AncestorLess(k, p);
      }
    }
    StrLessIrreflexive(p);
  }

  /** One key of `_build_tree`: once its parent is present, the key is new and can be filed. */
  lemma BuildStep(results: map<string, FileCompareResult>, keys: seq<string>, i: nat, t: NodeTable, t1: NodeTable)
    requires SortedKeys(results, keys) && Built(results, keys, i, t) && i < |keys|
    requires TableOk(t1) && ParentPath(keys[i]) in t1.entries && Grown(t.entries, t1.entries, ParentPath(keys[i]))
    ensures keys[i] !in t1.entries && keys[i] != ""
    ensures Built(results, keys, i + 1, AddNode(t1, keys[i], results[keys[i]]))
  {
    var p := keys[i];
    AllLess(results, keys, i, t, t1);
    AddNodeOk(t1, p, results[p]);
    var t2 := AddNode(t1, p, results[p]);
    DoneKeys(results, keys, i, t, t1, t2);
    forall k | k in t2.entries && k != ""
      ensures (exists m :: 0 <= m < i + 1 && keys[m] == k) ||
        (k !in results && t2.entries[k] == DirResult(k, PathName(k)) && exists m :: 0 <= m < i + 1 && ProperAncestor(k, keys[m]))
    {
      OtherNode(results, keys, i, t, t1, t2, k);
    }
  }

  lemma DoneKeys(results: map<string, FileCompareResult>, keys: seq<string>, i: nat, t: NodeTable, t1: NodeTable, t2: NodeTable)
    requires Built(results, keys, i, t) && i < |keys| && keys[i] in results && Grown(t.entries, t1.entries, ParentPath(keys[i]))
    requires t2.entries == t1.entries[keys[i] := results[keys[i]]]
    ensures forall m :: 0 <= m < i + 1 ==> keys[m] in results && keys[m] in t2.entries && t2.entries[keys[m]] == results[keys[m]]
  {
  }

  lemma OtherNode(results: map<string, FileCompareResult>, keys: seq<string>, i: nat, t: NodeTable, t1: NodeTable,
                  t2: NodeTable, k: string)
    requires SortedKeys(results, keys) && Built(results, keys, i, t) && i < |keys|
    requires Grown(t.entries, t1.entries, ParentPath(keys[i])) && t2.entries == t1.entries[keys[i] := results[keys[i]]]
    requires k in t2.entries && k != ""
    ensures (exists m :: 0 <= m < i + 1 && keys[m] == k) ||
      (k !in results && t2.entries[k] == DirResult(k, PathName(k)) && exists m :: 0 <= m < i + 1 && ProperAncestor(k, keys[m]))
  {
    if k == keys[i] {
    } else if k in t.entries {
      if m :| 0 <= m < i && keys[m] == k {
      } else {
        var m :| 0 <= m < i && ProperAncestor(k, keys[m]);
      }
    } else {
      NewAbove(t, t1, keys[i], k);
      NotKey(results, keys, i, t, k);
    }
  }

  lemma WfNonEmpty(p: string)
    requires WfPath(p)
    ensures p != ""
  {
    assert SplitOn(p, '/')[0] != "";
  }

  /**
   * `_build_tree`: files every result under its parent path, in sorted order of
   * the paths, creating missing ancestors on the way. Every result is in the
   * table under its own path with its own value, the root is the IDENTICAL ""
   * entry, and every other node is an IDENTICAL directory above some result.
   * The root name argument is unused by the source and left out.
   */
  method BuildTree(results: map<string, FileCompareResult>) returns (t: NodeTable)
    requires forall k :: k in results ==> WfPath(k)
    ensures TableOk(t) && t.entries[""] == RootResult
    ensures forall k :: k in results ==> k in t.entries && t.entries[k] == results[k]
    ensures forall k :: k in t.entries && k != "" && k !in results ==>
      t.entries[k] == DirResult(k, PathName(k)) && exists p :: p in results && ProperAncestor(k, p)
  {
    assert "" !in results by {
      forall k | k in results ensures k != "" { WfNonEmpty(k); }
    }
    var keys := SortedSet(results.Keys);
    t := EmptyTable;
    for i := 0 to |keys|
      invariant Built(results, keys, i, t)
    {
      var relPath := keys[i];
      var parentPath := ParentPath(relPath);
      var t1 := t;
      if parentPath !in t.entries {
        WfParent(relPath);
        t1 := EnsureParentNodes(t, parentPath);
      }
      BuildStep(results, keys, i, t, t1);
      t := AddNode(t1, relPath, results[relPath]);
    }
    BuildFinish(results, keys, t);
  }

  lemma BuildFinish(results: map<string, FileCompareResult>, keys: seq<string>, t: NodeTable)
    requires SortedKeys(results, keys) && Built(results, keys, |keys|, t)
    ensures forall k :: k in results ==> k in t.entries && t.entries[k] == results[k]
    ensures forall k :: k in t.entries && k != "" && k !in results ==>
      t.entries[k] == DirResult(k, PathName(k)) && exists p :: p in results && ProperAncestor(k, p)
  {
    forall k | k in results ensures k in t.entries && t.entries[k] == results[k] {
      var m :| 0 <= m < |keys| && keys[m] == k;
    }
    forall k | k in t.entries && k != "" && k !in results
      ensures exists p :: p in results && ProperAncestor(k, p)
    {
      var m :| 0 <= m < |keys| && ProperAncestor(k, keys[m]);
      assert keys[m] in results;
    }
  }

  // ---------------------------------------------------------------- sorting and reading out

  /** `(0 if n.is_directory else 1, n.name.lower())`. */
  function ResultKey(r: FileCompareResult): SortKey
  {
    SortKey(if r.IsDirectory() then 0 else 1, Lower(r.Name()))
  }

  /** The sort key of a child, looked up by its path. */
  function ChildKey(entries: map<string, FileCompareResult>): string -> SortKey
  {
    c => if c in entries then ResultKey(entries[c]) else SortKey(1, "")
  }

  /**
   * `_sort_tree`: every child list ordered directories first, then by lower-cased
   * name, as a permutation of the old list; the results are untouched. The
   * source recurses from the root; since every node is reached once, sorting
   * every list of the table is the same.
   */
  function SortTree(t: NodeTable): (s: NodeTable)
    ensures s.entries == t.entries && s.kids.Keys == t.kids.Keys
  {
    NodeTable(t.entries, map q | q in t.kids :: SortByKey(t.kids[q], ChildKey(t.entries)))
  }

  /** Each child list after `_sort_tree` is ordered by key and is a permutation of the old one. */
  lemma SortTreeKids(t: NodeTable, q: string)
    requires q in t.kids
    ensures SortedByKey(SortTree(t).kids[q], ChildKey(t.entries))
    ensures multiset(SortTree(t).kids[q]) == multiset(t.kids[q])
  {
  }

  lemma {:induction false} CountMultiset<T>(s: seq<T>, x: T)
    ensures Count(s, x) == multiset(s)[x]
  {
    if s != [] {
      CountMultiset(s[..|s| - 1], x);
      assert s == s[..|s| - 1] + [s[|s| - 1]];
    }
  }

  /** Two lists that are permutations of each other hold and count each path alike. */
  lemma PermutedKid(a: seq<string>, b: seq<string>, c: string)
    requires multiset(a) == multiset(b)
    ensures c in a <==> c in b
    ensures Count(a, c) == Count(b, c)
  {
    CountMultiset(a, c);
    CountMultiset(b, c);
    assert c in a <==> c in multiset(a);
    assert c in b <==> c in multiset(b);
  }

  /** Sorting keeps the table's shape. */
  lemma SortTreeOk(t: NodeTable)
    requires TableOk(t)
    ensures TableOk(SortTree(t))
  {
    var s := SortTree(t);
    forall q | q in s.kids ensures multiset(s.kids[q]) == multiset(t.kids[q]) {
      SortTreeKids(t, q);
    }
    PermutedTableOk(t, s);
  }

  /** Replacing every child list by a permutation of it keeps the table's shape. */
  lemma PermutedTableOk(t: NodeTable, s: NodeTable)
    requires TableOk(t) && s.entries == t.entries && s.kids.Keys == t.kids.Keys
    requires forall q :: q in s.kids ==> multiset(s.kids[q]) == multiset(t.kids[q])
    ensures TableOk(s)
  {
    PermutedKidsFiled(t, s);
    PermutedParentsList(t, s);
  }

  lemma PermutedKidsFiled(t: NodeTable, s: NodeTable)
    requires KidsFiled(t) && s.entries == t.entries && s.kids.Keys == t.kids.Keys
    requires forall q :: q in s.kids ==> multiset(s.kids[q]) == multiset(t.kids[q])
    ensures KidsFiled(s)
  {
    forall q, c | q in s.kids && c in s.kids[q]
      ensures c in s.entries && c != "" && ParentPath(c) == q
    {
      PermutedKid(s.kids[q], t.kids[q], c);
      assert c in t.kids[q];
    }
  }

  lemma PermutedParentsList(t: NodeTable, s: NodeTable)
    requires ParentsList(t) && s.entries == t.entries && s.kids.Keys == t.kids.Keys
    requires forall q :: q in s.kids ==> multiset(s.kids[q]) == multiset(t.kids[q])
    ensures ParentsList(s)
  {
    forall c | c in s.entries && c != ""
      ensures ParentPath(c) in s.kids && Count(s.kids[ParentPath(c)], c) == 1
    {
      var q := ParentPath(c);
      assert q in t.kids && Count(t.kids[q], c) == 1;
      PermutedKid(s.kids[q], t.kids[q], c);
    }
  }

  /** The paths at least `n + 1` characters long: what lies below a node of length `n`. */
  ghost function Deeper(t: NodeTable, n: nat): set<string>
  {
    set k | k in t.entries && |k| > n
  }

  lemma DeeperShrinks(t: NodeTable, p: string, c: string)
    requires c in t.entries && |c| > |p|
    ensures Deeper(t, |c|) < Deeper(t, |p|)
  {
    assert c in Deeper(t, |p|) && c !in Deeper(t, |c|);
  }

  /** The subtree of the finished table below `p`, as a `FolderCompareNode`. */
  function ToNode(t: NodeTable, p: string): FolderCompareNode
    requires TableOk(t) && p in t.entries
    decreases Deeper(t, |p|), 1
  {
    FolderCompareNode(t.entries[p], ToNodes(t, p, t.kids[p]))
  }

  function ToNodes(t: NodeTable, p: string, cs: seq<string>): seq<FolderCompareNode>
    requires TableOk(t) && p in t.entries && forall c :: c in cs ==> c in t.kids[p]
    decreases Deeper(t, |p|), 0, |cs|
  {
    if cs == [] then []
    else
      DeeperShrinks(t, p, cs[0]);
      [ToNode(t, cs[0])] + ToNodes(t, p, cs[1..])
  }

  /** The `i`-th child node is the node of the `i`-th child path. */
  lemma {:induction false} ToNodesIndex(t: NodeTable, p: string, cs: seq<string>)
    requires TableOk(t) && p in t.entries && forall c :: c in cs ==> c in t.kids[p]
    ensures |ToNodes(t, p, cs)| == |cs|
    ensures forall i :: 0 <= i < |cs| ==> ToNodes(t, p, cs)[i] == ToNode(t, cs[i])
  {
    if cs != [] {
      ToNodesIndex(t, p, cs[1..]);
    }
  }

  /** Every node of the subtree below `p` is the node of some path in the table. */
  lemma {:induction false} TreeNodes(t: NodeTable, p: string)
    requires TableOk(t) && p in t.entries
    ensures forall m :: m in ToNode(t, p).IterAll() ==> exists k :: k in t.entries && m == ToNode(t, k)
    decreases Deeper(t, |p|), 1
  {
    ForestNodes(t, p, t.kids[p]);
  }

  lemma {:induction false} ForestNodes(t: NodeTable, p: string, cs: seq<string>)
    requires TableOk(t) && p in t.entries && forall c :: c in cs ==> c in t.kids[p]
    ensures forall m :: m in IterAllOf(ToNodes(t, p, cs)) ==> exists k :: k in t.entries && m == ToNode(t, k)
    decreases Deeper(t, |p|), 0, |cs|
  {
    if cs != [] {
      DeeperShrinks(t, p, cs[0]);
      TreeNodes(t, cs[0]);
      ForestNodes(t, p, cs[1..]);
    }
  }

  /** Every path of the table has its node in the tree read from the root. */
  lemma {:induction false} TreeCovers(t: NodeTable, k: string)
    requires TableOk(t) && k in t.entries
    ensures ToNode(t, k) in ToNode(t, "").IterAll()
    decreases |k|
  {
    if k != "" {
      var q := ParentPath(k);
      TreeCovers(t, q);
      var cs := t.kids[q];
      assert k in cs;
      var i :| 0 <= i < |cs| && cs[i] == k;
      ToNodesIndex(t, q, cs);
      IterAllOfMember(ToNodes(t, q, cs), i);
      assert ToNode(t, k) in ToNode(t, q).IterAll();
      IterAllTrans(ToNode(t, ""), ToNode(t, q));
    }
  }

  /** Each node's children are ordered by `ResultKey`. */
  predicate ChildrenSorted(n: FolderCompareNode)
  {
    forall i, j :: 0 <= i < j < |n.children| ==> !KeyLess(ResultKey(n.children[j].result), ResultKey(n.children[i].result))
  }

  /** After `_sort_tree` every node of the tree has its children in order. */
  lemma SortedTree(t: NodeTable)
    requires TableOk(t)
    ensures TableOk(SortTree(t))
    ensures forall m :: m in ToNode(SortTree(t), "").IterAll() ==> ChildrenSorted(m)
  {
    var s := SortTree(t);
    SortTreeOk(t);
    TreeNodes(s, "");
    forall m | m in ToNode(s, "").IterAll() ensures ChildrenSorted(m) {
      var k :| k in s.entries && m == ToNode(s, k);
      NodeSorted(t, k);
    }
  }

  lemma NodeSorted(t: NodeTable, k: string)
    requires TableOk(t) && TableOk(SortTree(t)) && k in t.entries
    ensures ChildrenSorted(ToNode(SortTree(t), k))
  {
    SortTreeKids(t, k);
    NodeSortedBy(SortTree(t), k);
  }

  /** A node whose child list is ordered by key has its child nodes in order. */
  lemma NodeSortedBy(s: NodeTable, k: string)
    requires TableOk(s) && k in s.entries && SortedByKey(s.kids[k], ChildKey(s.entries))
    ensures ChildrenSorted(ToNode(s, k))
  {
    var cs := s.kids[k];
    ToNodesIndex(s, k, cs);
    var n := ToNode(s, k);
    assert n.children == ToNodes(s, k, cs);
    forall i | 0 <= i < |cs| ensures ResultKey(n.children[i].result) == ChildKey(s.entries)(cs[i]) {
      ChildKeyOf(s, k, cs, i);
    }
  }

  lemma ChildKeyOf(s: NodeTable, k: string, cs: seq<string>, i: int)
    requires TableOk(s) && k in s.entries && cs == s.kids[k] && 0 <= i < |cs|
    ensures ToNode(s, cs[i]).result == s.entries[cs[i]]
    ensures ResultKey(s.entries[cs[i]]) == ChildKey(s.entries)(cs[i])
  {
    assert cs[i] in s.entries;
  }
}
