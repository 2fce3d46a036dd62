/**
 * The filtering and tree rules of the directory scanner
 * (app/core/folder/scanner.py): `ScanOptions.should_include`, the
 * gitignore-style `PatternMatcher`, and `DirectoryTree`'s node insertion and
 * lookup. The tree's nodes are kept in a map from each node's address, its path
 * components joined by '/', with the root at "". The directory walk itself is I/O and is not modelled; `fnmatch` and
 * regular-expression search are oracles.
 */
module Scanner {
  import opened Wrappers
  import opened TextUtil
  import opened Models
  import opened Ordering

  // ---------------------------------------------------------------- should_include

  /** The fields of `ScanOptions` that `should_include` reads. */
  datatype ScanOptions = ScanOptions(includeHidden: bool, includePatterns: seq<string>, excludePatterns: seq<string>)

  /** The default exclusions of `ScanOptions`. */
  const DefaultExcludes: seq<string> := [
    ".git", ".svn", ".hg", ".bzr", "__pycache__", "*.pyc", "*.pyo", "node_modules", ".npm",
    ".DS_Store", "Thumbs.db", "desktop.ini", "*.swp", "*.swo", "*~", ".idea", ".vscode", "*.suo", "*.user"]

  const DefaultScanOptions := ScanOptions(false, [], DefaultExcludes)

  /** A pattern hits a path when `fnmatch` accepts the path's name or the whole path. */
  predicate Hits(fnmatch: (string, string) -> bool, path: string, pattern: string)
  {
    fnmatch(PathName(path), pattern) || fnmatch(path, pattern)
  }

  /**
   * When `should_include` keeps a path: its name is not hidden (unless hidden
   * names are included), no exclude pattern hits it, and when include patterns
   * exist some include pattern hits it, or it is a directory.
   */
  predicate Included(o: ScanOptions, path: string, isDir: bool, fnmatch: (string, string) -> bool)
  {
    (o.includeHidden || !StartsWith(PathName(path), ".")) &&
    (forall k :: 0 <= k < |o.excludePatterns| ==> !Hits(fnmatch, path, o.excludePatterns[k])) &&
    (o.includePatterns == [] || isDir ||
     exists k :: 0 <= k < |o.includePatterns| && Hits(fnmatch, path, o.includePatterns[k]))
  }

  /** `ScanOptions.should_include`; `fnmatch(s, pattern)` is `fnmatch.fnmatch`. */
  method ShouldInclude(o: ScanOptions, path: string, isDir: bool, fnmatch: (string, string) -> bool) returns (b: bool)
    ensures b == Included(o, path, isDir, fnmatch)
  {
    var name := PathName(path);
    if !o.includeHidden && StartsWith(name, ".") {
      return false;
    }
    for k := 0 to |o.excludePatterns|
      invariant forall j :: 0 <= j < k ==> !Hits(fnmatch, path, o.excludePatterns[j])
    {
      var pattern := o.excludePatterns[k];
      if fnmatch(name, pattern) {
        return false;
      }
      if fnmatch(path, pattern) {
        return false;
      }
    }
    if o.includePatterns != [] {
      var matched := false;
      for k := 0 to |o.includePatterns|
        invariant !matched
        invariant forall j :: 0 <= j < k ==> !Hits(fnmatch, path, o.includePatterns[j])
      {
        var pattern := o.includePatterns[k];
        if fnmatch(name, pattern) {
          matched := true;
          break;
        }
        if fnmatch(path, pattern) {
          matched := true;
          break;
        }
      }
      if !matched && !isDir {
        return false;
      }
    }
    return true;
  }

  /** Hidden names are dropped unless included, whatever the patterns say. */
  lemma HiddenDropped(o: ScanOptions, path: string, isDir: bool, fnmatch: (string, string) -> bool)
    requires !o.includeHidden && StartsWith(PathName(path), ".")
    ensures !Included(o, path, isDir, fnmatch)
  {
  }

  /** Include patterns only ever drop files: a directory is kept iff the include list is ignored. */
  lemma IncludesSpareDirectories(o: ScanOptions, path: string, fnmatch: (string, string) -> bool)
    ensures Included(o, path, true, fnmatch) == Included(o.(includePatterns := []), path, true, fnmatch)
    ensures Included(o, path, false, fnmatch) ==> Included(o, path, true, fnmatch)
  {
  }

  // ---------------------------------------------------------------- scan results

  /** What a scan found: metadata by relative path, files and directories apart. */
  datatype ScanResult = ScanResult(files: map<string, FileMetadata>, directories: map<string, FileMetadata>)
  {
    function AllPaths(): set<string>
    {
      files.Keys + directories.Keys
    }

    /** `get_metadata`: the file entry, else the directory entry. */
    function GetMetadata(p: string): (m: Option<FileMetadata>)
      ensures m.Some? <==> p in AllPaths()
      ensures p in files ==> m == Some(files[p])
    {
      if p in files then Some(files[p]) else if p in directories then Some(directories[p]) else None
    }
  }

  // ---------------------------------------------------------------- pattern translation

  /** The characters `_pattern_to_regex` escapes with a backslash. */
  const Special: set<char> := {'.', '^', '$', '+', '{', '}', '[', ']', '|', '(', ')', '\\'}

  /** The position of the first ']' at or after `j`, or the end of the pattern. */
  function ClassEnd(p: string, j: nat): (e: nat)
    requires j <= |p|
    ensures j <= e <= |p| && (e < |p| ==> p[e] == ']')
    ensures forall k :: j <= k < e ==> p[k] != ']'
    decreases |p| - j
  {
    if j == |p| || p[j] == ']' then j else ClassEnd(p, j + 1)
  }

  /**
   * The regex text for the token at position `i`, and the position after it:
   * a double star and a slash, a double star, `*`, `?`, a `[...]` class (with a leading '!' turned into '^',
   * running to the first ']' or the end), a backslash-escaped special, or a
   * literal character.
   */
  function Token(p: string, i: nat): (t: (string, nat))
    requires i < |p|
    ensures i < t.1 <= |p| + 1
  {
    if p[i] == '*' then
      if i + 1 < |p| && p[i + 1] == '*' then
        if i + 2 < |p| && p[i + 2] == '/' then ("(?:.*/)?", i + 3) else (".*", i + 2)
      else ("[^/]*", i + 1)
    else if p[i] == '?' then ("[^/]", i + 1)
    else if p[i] == '[' then
      var negated := i + 1 < |p| && p[i + 1] == '!';
      var start := if negated then i + 2 else i + 1;
      var e := ClassEnd(p, start);
      ((if negated then "[^" else "[") + p[start..e] + "]", e + 1)
    else if p[i] in Special then ("\\" + [p[i]], i + 1)
    else ([p[i]], i + 1)
  }

  /** The regex text for the pattern from position `i` on, token by token. */
  function TranslateFrom(p: string, i: nat): string
    decreases |p| + 1 - i
  {
    if i >= |p| then "" else Token(p, i).0 + TranslateFrom(p, Token(p, i).1)
  }

  const AnchoredHead := "^"
  const FloatingHead := "(?:^|/)"
  const Tail := "(?:/.*)?$"

  /** The whole regex for a pattern. */
  function Regex(p: string, anchored: bool): string
  {
    (if anchored then AnchoredHead else FloatingHead) + TranslateFrom(p, 0) + Tail
  }

  /** `_pattern_to_regex`: the token loop, then the anchor and the trailing `(?:/.*)?$`. */
  method PatternToRegex(pattern: string, anchored: bool) returns (regex: string)
    ensures regex == Regex(pattern, anchored)
  {
    var result := "";
    var i := 0;
    while i < |pattern|
      invariant 0 <= i <= |pattern| + 1
      invariant result + TranslateFrom(pattern, i) == TranslateFrom(pattern, 0)
      decreases |pattern| + 1 - i
    {
      var piece, next := NextToken(pattern, i);
      Emit(result, piece, pattern, i, next);
      result := result + piece;
      i := next;
    }
    if anchored {
      regex := AnchoredHead + result;
    } else {
      regex := FloatingHead + result;
    }
    regex := regex + Tail;
  }

  /** One pass of the token loop: the pieces appended for the token at `i`, and where the next token starts. */
  method NextToken(pattern: string, i: nat) returns (piece: string, next: nat)
    requires i < |pattern|
    ensures (piece, next) == Token(pattern, i)
  {
    var c := pattern[i];
    if c == '*' {
      if i + 1 < |pattern| && pattern[i + 1] == '*' {
        if i + 2 < |pattern| && pattern[i + 2] == '/' {
          return "(?:.*/)?", i + 3;
        } else {
          return ".*", i + 2;
        }
      } else {
        piece := "[^/]*";
      }
    } else if c == '?' {
      piece := "[^/]";
    } else if c == '[' {
      var j := i + 1;
      if j < |pattern| && pattern[j] == '!' {
        piece := "[^";
        j := j + 1;
      } else {
        piece := "[";
      }
      var body;
      body, j := ClassBody(pattern, j);
      piece := piece + body;
      piece := piece + "]";
      return piece, j + 1;
    } else if c in Special {
      piece := "\\" + [c];
    } else {
      piece := [c];
    }
    next := i + 1;
  }

  /** The inner loop over a class body: the characters up to the first ']' or the end. */
  method ClassBody(pattern: string, start: nat) returns (body: string, j: nat)
    requires start <= |pattern|
    ensures j == ClassEnd(pattern, start) && body == pattern[start..j]
  {
    body := "";
    j := start;
    while j < |pattern| && pattern[j] != ']'
      invariant start <= j <= ClassEnd(pattern, start) && body == pattern[start..j]
      decreases |pattern| - j
    {
      assert pattern[start..j + 1] == pattern[start..j] + [pattern[j]];
      body := body + [pattern[j]];
      j := j + 1;
    }
  }

  /** One token emitted: the invariant of the translation loop carries over. */
  lemma Emit(before: string, piece: string, p: string, i: nat, next: nat)
    requires i < |p| && before + TranslateFrom(p, i) == TranslateFrom(p, 0)
    requires Token(p, i) == (piece, next)
    ensures (before + piece) + TranslateFrom(p, next) == TranslateFrom(p, 0)
  {
  }

  /** The regex opens with its anchor and closes with `(?:/.*)?$`, so a match may continue into a directory's contents. */
  lemma RegexShape(p: string, anchored: bool)
    ensures anchored ==> StartsWith(Regex(p, anchored), AnchoredHead)
    ensures !anchored ==> StartsWith(Regex(p, anchored), FloatingHead)
    ensures EndsWith(Regex(p, anchored), Tail)
  {
  }

  /** Text free of wildcards and specials is copied as it is. */
  lemma {:induction false} TranslateLiteral(p: string, i: nat)
    requires i <= |p| && forall k :: i <= k < |p| ==> p[k] !in Special && p[k] != '*' && p[k] != '?'
    ensures TranslateFrom(p, i) == p[i..]
    decreases |p| - i
  {
    if i < |p| {
      TranslateLiteral(p, i + 1);
      assert p[i..] == [p[i]] + p[i + 1..];
    }
  }

  /**
   * A pattern without `*` and `[` translates character by character, so its
   * translation followed by that of a suffix is the translation of both.
   */
  lemma {:induction false} TranslateAppend(p: string, q: string, i: nat)
    requires i <= |p| && forall k :: i <= k < |p| ==> p[k] != '*' && p[k] != '['
    ensures TranslateFrom(p + q, i) == TranslateFrom(p, i) + TranslateFrom(q, 0)
    decreases |p| - i
  {
    if i < |p| {
      SingleToken(p, q, i);
      var t := Token(p, i).0;
      TranslateAppend(p, q, i + 1);
      assert TranslateFrom(p + q, i) == t + TranslateFrom(p + q, i + 1);
      assert TranslateFrom(p, i) == t + TranslateFrom(p, i + 1);
      AppendAssoc(t, TranslateFrom(p, i + 1), TranslateFrom(q, 0));
    } else {
      TranslateShift(p, q, 0);
    }
  }

  /** A token other than a star or a class is the one character at `i`, whatever follows. */
  lemma SingleToken(p: string, q: string, i: nat)
    requires i < |p| && p[i] != '*' && p[i] != '['
    ensures Token(p + q, i) == Token(p, i) && Token(p, i).1 == i + 1
  {
    assert (p + q)[i] == p[i];
  }

  /** The translation from a position reads only what follows it. */
  lemma {:induction false} TranslateShift(p: string, q: string, i: nat)
    ensures TranslateFrom(p + q, |p| + i) == TranslateFrom(q, i)
    decreases |q| + 1 - i
  {
    if i < |q| {
      TokenShift(p, q, i);
      TranslateShift(p, q, Token(q, i).1);
    }
  }

  lemma TokenShift(p: string, q: string, i: nat)
    requires i < |q|
    ensures Token(p + q, |p| + i) == (Token(q, i).0, |p| + Token(q, i).1)
  {
    var s := p + q;
    assert s[|p| + i] == q[i];
    assert |p| + i + 1 < |s| ==> s[|p| + i + 1] == q[i + 1];
    assert |p| + i + 2 < |s| ==> s[|p| + i + 2] == q[i + 2];
    if q[i] == '[' {
      ClassShift(p, q, i);
    }
  }

  lemma ClassShift(p: string, q: string, i: nat)
    requires i < |q| && q[i] == '['
    ensures Token(p + q, |p| + i) == (Token(q, i).0, |p| + Token(q, i).1)
  {
    var s := p + q;
    assert s[|p| + i] == q[i];
    assert |p| + i + 1 < |s| ==> s[|p| + i + 1] == q[i + 1];
    var start := if i + 1 < |q| && q[i + 1] == '!' then i + 2 else i + 1;
    ClassEndShift(p, q, start);
    var e := ClassEnd(q, start);
    assert s[|p| + start..|p| + e] == q[start..e];
  }

  lemma {:induction false} ClassEndShift(p: string, q: string, j: nat)
    requires j <= |q|
    ensures ClassEnd(p + q, |p| + j) == |p| + ClassEnd(q, j)
    decreases |q| - j
  {
    if j < |q| {
      assert (p + q)[|p| + j] == q[j];
      ClassEndShift(p, q, j + 1);
    }
  }

  // ---------------------------------------------------------------- PatternMatcher

  /** One compiled pattern: its regex and whether it applies to directories only. */
  datatype Compiled = Compiled(regex: string, dirOnly: bool)

  /** What `_compile_pattern` records for a pattern: nothing, or the polarity and the compiled pattern. */
  datatype Polarity = Positive | Negative

  function CompiledOf(pattern: string): Option<(Polarity, Compiled)>
  {
    if pattern == "" || StartsWith(pattern, "#") then None
    else
      var p := Strip(pattern);
      if p == "" then None
      else
        var negative := StartsWith(p, "!");
        var p1 := if negative then p[1..] else p;
        var dirOnly := EndsWith(p1, "/");
        var p2 := if dirOnly then p1[..|p1| - 1] else p1;
        var anchored := StartsWith(p2, "/");
        var p3 := if anchored then p2[1..] else p2;
        Some((if negative then Negative else Positive, Compiled(Regex(p3, anchored), dirOnly)))
  }

  /**
   * Empty and '#' patterns are skipped (the comment test comes before the
   * strip); a leading '!' makes the pattern negative, a trailing '/' makes it
   * directory-only, and a leading '/' after those anchors it.
   */
  lemma CompiledOfProps(pattern: string)
    ensures pattern == "" || StartsWith(pattern, "#") || AllSpace(pattern) ==> CompiledOf(pattern).None?
    ensures CompiledOf(pattern).Some? ==>
      var p := Strip(pattern);
      var c := CompiledOf(pattern).value;
      p != "" &&
      (c.0 == Negative <==> p[0] == '!') &&
      (c.1.dirOnly <==> EndsWith(if p[0] == '!' then p[1..] else p, "/"))
  {
    if AllSpace(pattern) {
      RStripAllSpace(pattern);
    }
  }

  /** `!/x/` is a negative, directory-only pattern for `x`, anchored at the root. */
  lemma NegatedDirExample()
    ensures CompiledOf("!/x/") == Some((Negative, Compiled(Regex("x", true), true)))
  {
    var n := "!/x/";
    NoEdgeSpace(n);
    assert n != "" && !StartsWith(n, "#") && StartsWith(n, "!");
    assert n[1..] == "/x/" && EndsWith(n[1..], "/");
    assert n[1..][..2] == "/x" && StartsWith("/x", "/") && "/x"[1..] == "x";
  }

  /** A string that neither starts nor ends with whitespace strips to itself. */
  lemma NoEdgeSpace(s: string)
    requires s != "" && !IsSpace(s[0]) && !IsSpace(s[|s| - 1])
    ensures Strip(s) == s
  {
  }

  /** ` #x` is no comment: the '#' test looks at the pattern before it is stripped. */
  lemma SpacedHashExample()
    ensures CompiledOf(" #x") == Some((Positive, Compiled(Regex("#x", false), false)))
  {
    var h := " #x";
    assert Strip(h) == "#x" by {
      assert !IsSpace(h[2]) && RStrip(h) == h;
      assert IsSpace(h[0]) && h[1..] == "#x";
      assert !IsSpace('#') && LStrip("#x") == "#x";
    }
    assert h != "" && !StartsWith(h, "#");
    assert !StartsWith("#x", "!") && !EndsWith("#x", "/") && !StartsWith("#x", "/");
  }

  /** A blank string strips to nothing. */
  lemma {:induction false} RStripAllSpace(s: string)
    requires AllSpace(s)
    ensures RStrip(s) == "" && Strip(s) == ""
  {
    if s != "" {
      RStripAllSpace(s[..|s| - 1]);
    }
  }

  /** The patterns compiled from a list, per polarity, in list order. */
  function CompiledList(patterns: seq<string>, pol: Polarity): (r: seq<Compiled>)
    ensures |r| <= |patterns|
  {
    if patterns == [] then []
    else CompiledList(patterns[..|patterns| - 1], pol) + Contribution(patterns[|patterns| - 1], pol)
  }

  /** What one pattern adds to the list of a polarity: its compiled form, or nothing. */
  function Contribution(pattern: string, pol: Polarity): (r: seq<Compiled>)
    ensures |r| <= 1
  {
    var c := CompiledOf(pattern);
    if c.Some? && c.value.0 == pol then [c.value.1] else []
  }

  lemma CompiledListStep(patterns: seq<string>, i: nat, pol: Polarity)
    requires i < |patterns|
    ensures CompiledList(patterns[..i + 1], pol) == CompiledList(patterns[..i], pol) + Contribution(patterns[i], pol)
  {
    assert patterns[..i + 1][..i] == patterns[..i];
  }

  /** Whether a compiled pattern takes part for this kind of path. */
  predicate Applies(c: Compiled, isDir: bool)
  {
    !c.dirOnly || isDir
  }

  /** Some pattern of the list that applies finds a match in the path. */
  predicate AnyHit(cs: seq<Compiled>, path: string, isDir: bool, search: (string, string) -> bool)
  {
    exists k :: 0 <= k < |cs| && Applies(cs[k], isDir) && search(cs[k].regex, path)
  }

  /** The path `matches` tests: separators made '/', one leading '/' dropped. */
  function Normalized(path: string, sep: char): (r: string)
    ensures '/' != sep ==> sep !in r
  {
    var p := seq(|path|, k requires 0 <= k < |path| => if path[k] == sep then '/' else path[k]);
    if StartsWith(p, "/") then p[1..] else p
  }

  /** `matches`: excluded iff some positive pattern hits and no negative one does. */
  predicate Excluded(positive: seq<Compiled>, negative: seq<Compiled>, path: string, isDir: bool,
                     search: (string, string) -> bool)
  {
    AnyHit(positive, path, isDir, search) && !AnyHit(negative, path, isDir, search)
  }

  /** Only the patterns that are not directory-only. */
  function ForFiles(cs: seq<Compiled>): (r: seq<Compiled>)
    ensures forall k :: 0 <= k < |r| ==> !r[k].dirOnly
    ensures forall c :: c in r <==> c in cs && !c.dirOnly
  {
    if cs == [] then []
    else ForFiles(cs[..|cs| - 1]) + (if cs[|cs| - 1].dirOnly then [] else [cs[|cs| - 1]])
  }

  /** Directory-only patterns never decide anything for a file. */
  lemma DirOnlyIgnoredForFiles(positive: seq<Compiled>, negative: seq<Compiled>, path: string,
                               search: (string, string) -> bool)
    ensures Excluded(positive, negative, path, false, search) == Excluded(ForFiles(positive), ForFiles(negative), path, false, search)
  {
    ForFilesHit(positive, path, search);
    ForFilesHit(negative, path, search);
  }

  lemma ForFilesHit(cs: seq<Compiled>, path: string, search: (string, string) -> bool)
    ensures AnyHit(cs, path, false, search) == AnyHit(ForFiles(cs), path, false, search)
  {
    if AnyHit(cs, path, false, search) {
      var k :| 0 <= k < |cs| && Applies(cs[k], false) && search(cs[k].regex, path);
      assert cs[k] in ForFiles(cs);
    }
    if AnyHit(ForFiles(cs), path, false, search) {
      var k :| 0 <= k < |ForFiles(cs)| && search(ForFiles(cs)[k].regex, path);
      assert ForFiles(cs)[k] in cs;
    }
  }

  /** A negative pattern that applies and matches wins over every positive one. */
  lemma NegativeWins(positive: seq<Compiled>, negative: seq<Compiled>, path: string, isDir: bool,
                     search: (string, string) -> bool, k: nat)
    requires k < |negative| && Applies(negative[k], isDir) && search(negative[k].regex, path)
    ensures !Excluded(positive, negative, path, isDir, search)
  {
  }

  /** The compiled pattern lists of one gitignore-style pattern set. */
  class PatternMatcher {
    var positive: seq<Compiled>
    var negative: seq<Compiled>

    /** `PatternMatcher(patterns)`: each pattern compiled in order. */
    constructor (patterns: seq<string>)
      ensures positive == CompiledList(patterns, Positive) && negative == CompiledList(patterns, Negative)
    {
      positive := [];
      negative := [];
      new;
      for i := 0 to |patterns|
        invariant positive == CompiledList(patterns[..i], Positive) && negative == CompiledList(patterns[..i], Negative)
      {
        CompiledListStep(patterns, i, Positive);
        CompiledListStep(patterns, i, Negative);
        CompilePattern(patterns[i]);
      }
      assert patterns[..|patterns|] == patterns;
    }

    /** `_compile_pattern`: appends the pattern to the list of its polarity, if it is one. */
    method CompilePattern(pattern: string)
      modifies this
      ensures positive == old(positive) + Contribution(pattern, Positive)
      ensures negative == old(negative) + Contribution(pattern, Negative)
    {
      if pattern == "" || StartsWith(pattern, "#") {
        return;
      }
      var p := Strip(pattern);
      if p == "" {
        return;
      }
      var isNegative := StartsWith(p, "!");
      if isNegative {
        p := p[1..];
      }
      var dirOnly := EndsWith(p, "/");
      if dirOnly {
        p := p[..|p| - 1];
      }
      var anchored := StartsWith(p, "/");
      if anchored {
        p := p[1..];
      }
      var regex := PatternToRegex(p, anchored);
      if isNegative {
        negative := negative + [Compiled(regex, dirOnly)];
      } else {
        positive := positive + [Compiled(regex, dirOnly)];
      }
    }

    /**
     * `matches`: whether the path is excluded. `sep` is `os.sep`, and
     * `search(regex, path)` is `re.search` of the compiled regex.
     */
    method Matches(path: string, isDir: bool, sep: char, search: (string, string) -> bool) returns (b: bool)
      ensures b == Excluded(positive, negative, Normalized(path, sep), isDir, search)
    {
      var p := seq(|path|, k requires 0 <= k < |path| => if path[k] == sep then '/' else path[k]);
      if StartsWith(p, "/") {
        p := p[1..];
      }
      var matched := false;
      for k := 0 to |positive|
        invariant !matched
        invariant forall j :: 0 <= j < k ==> !(Applies(positive[j], isDir) && search(positive[j].regex, p))
      {
        var c := positive[k];
        if c.dirOnly && !isDir {
          continue;
        }
        if search(c.regex, p) {
          matched := true;
          break;
        }
      }
      if !matched {
        return false;
      }
      for k := 0 to |negative|
        invariant forall j :: 0 <= j < k ==> !(Applies(negative[j], isDir) && search(negative[j].regex, p))
      {
        var c := negative[k];
        if c.dirOnly && !isDir {
          continue;
        }
        if search(c.regex, p) {
          return false;
        }
      }
      return true;
    }
  }

  /** A pattern list with only negations, comments and blanks excludes nothing. */
  lemma OnlyNegationsExcludeNothing(patterns: seq<string>, path: string, isDir: bool, search: (string, string) -> bool)
    requires forall k :: 0 <= k < |patterns| ==> CompiledOf(patterns[k]).None? || CompiledOf(patterns[k]).value.0 == Negative
    ensures !Excluded(CompiledList(patterns, Positive), CompiledList(patterns, Negative), path, isDir, search)
  {
    NoPositives(patterns);
  }

  lemma {:induction false} NoPositives(patterns: seq<string>)
    requires forall k :: 0 <= k < |patterns| ==> CompiledOf(patterns[k]).None? || CompiledOf(patterns[k]).value.0 == Negative
    ensures CompiledList(patterns, Positive) == []
  {
    if patterns != [] {
      NoPositives(patterns[..|patterns| - 1]);
    }
  }

  // ---------------------------------------------------------------- DirectoryTree

  /** A node of `DirectoryTree`: its name, its path, its metadata and the names of its children. */
  datatype TreeNode = TreeNode(name: string, path: string, metadata: FileMetadata, children: set<string>)

  /** `str(Path(cur) / part) if cur else part`, for a component without '/'. */
  function ChildAddr(cur: string, part: string): (r: string)
    ensures |r| > |cur| || part == ""
  {
    if cur != "" then cur + "/" + part else part
  }

  /** Components as `Path.parts` leaves them: none empty. */
  predicate Components(parts: seq<string>)
  {
    forall k :: 0 <= k < |parts| ==> parts[k] != ""
  }

  /** The address reached after the first `k` components. */
  function AddrAt(parts: seq<string>, k: nat): string
    requires k <= |parts|
  {
    if k == 0 then "" else ChildAddr(AddrAt(parts, k - 1), parts[k - 1])
  }

  /** Addresses grow along a path, so no node on it is the target of a later step. */
  lemma {:induction false} AddrGrows(parts: seq<string>, j: nat, k: nat)
    requires Components(parts) && j < k <= |parts|
    ensures |AddrAt(parts, j)| < |AddrAt(parts, k)|
    decreases k
  {
    if j < k - 1 {
      AddrGrows(parts, j, k - 1);
    }
  }

  /** The children of the node at `a`, none if there is no node there. */
  function Children(nodes: map<string, TreeNode>, a: string): set<string>
  {
    if a in nodes then nodes[a].children else {}
  }

  /** Every step of the first `k` components goes from a node to a child it lists. */
  predicate ReachesTo(nodes: map<string, TreeNode>, parts: seq<string>, k: nat)
    requires k <= |parts|
  {
    forall j {:trigger Children(nodes, AddrAt(parts, j))} :: 0 <= j < k ==> parts[j] in Children(nodes, AddrAt(parts, j))
  }

  /** Every listed child has a node, and so has the root. */
  predicate Closed(nodes: map<string, TreeNode>)
  {
    "" in nodes && forall a, c {:trigger ChildAddr(a, c)} :: a in nodes && c in nodes[a].children ==> ChildAddr(a, c) in nodes
  }

  /** The walk of `get_node` over the components: the node at their end, if each is a child of the one before. */
  function Find(nodes: map<string, TreeNode>, parts: seq<string>): Option<TreeNode>
  {
    var a := AddrAt(parts, |parts|);
    if ReachesTo(nodes, parts, |parts|) && a in nodes then Some(nodes[a]) else None
  }

  /** `get_node`: the walk over the path's components. */
  function Lookup(nodes: map<string, TreeNode>, relPath: string): Option<TreeNode>
  {
    Find(nodes, PathParts(relPath))
  }

  /** The metadata `FileMetadata(path, name, DIRECTORY)` with the dataclass defaults. */
  function DirMeta(path: string, name: string): FileMetadata
  {
    FileMetadata(path, name, Directory, 0, None, false, None)
  }

  /** `current.children[name] = node` for the node at `a`. */
  function Attach(nodes: map<string, TreeNode>, a: string, name: string, node: TreeNode): (r: map<string, TreeNode>)
    requires a in nodes && name != "" && node.children == {}
    ensures Closed(nodes) ==> Closed(r)
    ensures r.Keys == nodes.Keys + {ChildAddr(a, name)}
  {
    var r := nodes[a := nodes[a].(children := nodes[a].children + {name})][ChildAddr(a, name) := node];
    AttachClosed(nodes, a, name, node, r);
    r
  }

  lemma AttachClosed(nodes: map<string, TreeNode>, a: string, name: string, node: TreeNode, r: map<string, TreeNode>)
    requires a in nodes && name != "" && node.children == {}
    requires r == nodes[a := nodes[a].(children := nodes[a].children + {name})][ChildAddr(a, name) := node]
    ensures Closed(nodes) ==> Closed(r)
  {
    if Closed(nodes) {
      forall b, c | b in r && c in r[b].children
        ensures ChildAddr(b, c) in r
      {
        if b != ChildAddr(a, name) && b != a {
          assert r[b] == nodes[b];
        }
      }
    }
  }

  /** Attaching adds `name` to the children at `a`, and leaves the children elsewhere as they were, but at the new child's address. */
  lemma {:induction false} AttachFrame(nodes: map<string, TreeNode>, a: string, name: string, node: TreeNode)
    requires a in nodes && name != "" && node.children == {}
    ensures Children(Attach(nodes, a, name, node), a) == Children(nodes, a) + {name}
    ensures forall b :: b != a && b != ChildAddr(a, name) ==> Children(Attach(nodes, a, name, node), b) == Children(nodes, b)
  {
  }

  /** One pass of the loop over the parent components: an intermediate directory is created only where the child is missing. */
  function Step(nodes: map<string, TreeNode>, rootPath: string, a: string, part: string): (r: map<string, TreeNode>)
    requires a in nodes && part != ""
    ensures Closed(nodes) ==> Closed(r) && ChildAddr(a, part) in r
    ensures nodes.Keys <= r.Keys
  {
    if part in nodes[a].children then nodes
    else
      var cp := ChildAddr(a, part);
      Attach(nodes, a, part, TreeNode(part, cp, DirMeta(ChildAddr(rootPath, cp), part), {}))
  }

  /** A step adds `part` to the children at `a`, and leaves the children elsewhere as they were, but at the new child's address. */
  lemma {:induction false} StepFrame(nodes: map<string, TreeNode>, rootPath: string, a: string, part: string)
    requires a in nodes && part != ""
    ensures Children(Step(nodes, rootPath, a, part), a) == Children(nodes, a) + {part}
    ensures forall b :: b != a && b != ChildAddr(a, part) ==> Children(Step(nodes, rootPath, a, part), b) == Children(nodes, b)
  {
  }

  /** The nodes after the loop has opened the first `k` components. */
  function Opened(nodes: map<string, TreeNode>, rootPath: string, parts: seq<string>, k: nat): (r: map<string, TreeNode>)
    requires Closed(nodes) && Components(parts) && k <= |parts|
    ensures Closed(r) && AddrAt(parts, k) in r
  {
    if k == 0 then nodes else Step(Opened(nodes, rootPath, parts, k - 1), rootPath, AddrAt(parts, k - 1), parts[k - 1])
  }

  /** The parents opened, then the new node attached under the last of them. */
  function Insert(nodes: map<string, TreeNode>, rootPath: string, parts: seq<string>, relPath: string, metadata: FileMetadata): (r: map<string, TreeNode>)
    requires Closed(nodes) && Components(parts) && parts != []
    ensures Closed(r)
  {
    var n := |parts| - 1;
    Attach(Opened(nodes, rootPath, parts, n), AddrAt(parts, n), parts[n], TreeNode(parts[n], relPath, metadata, {}))
  }

  /** `_add_node`: `IndexError` when the path has no components, else the insertion. */
  function WithNode(nodes: map<string, TreeNode>, rootPath: string, relPath: string, metadata: FileMetadata): (r: map<string, TreeNode>)
    requires Closed(nodes)
    ensures Closed(r)
  {
    var parts := PathParts(relPath);
    if parts == [] then nodes else Insert(nodes, rootPath, parts, relPath, metadata)
  }

  /** The node `_add_node` returns. */
  function NewNode(relPath: string, metadata: FileMetadata): Result<TreeNode>
  {
    var parts := PathParts(relPath);
    if parts == [] then Err("IndexError") else Ok(TreeNode(parts[|parts| - 1], relPath, metadata, {}))
  }

  /** A step keeps every node of a path it extends. */
  lemma {:induction false} StepKeepsPath(nodes: map<string, TreeNode>, rootPath: string, parts: seq<string>, k: nat)
    requires Closed(nodes) && Components(parts) && k < |parts| && AddrAt(parts, k) in nodes
    requires ReachesTo(nodes, parts, k)
    ensures ReachesTo(Step(nodes, rootPath, AddrAt(parts, k), parts[k]), parts, k + 1)
  {
    var a := AddrAt(parts, k);
    StepFrame(nodes, rootPath, a, parts[k]);
    KeepsPath(nodes, Step(nodes, rootPath, a, parts[k]), parts, k);
  }

  /** A map that lists `parts[k]` under the `k`-th address and agrees elsewhere, but at the next address, keeps the path. */
  lemma {:induction false} KeepsPath(nodes: map<string, TreeNode>, r: map<string, TreeNode>, parts: seq<string>, k: nat)
    requires Components(parts) && k < |parts| && ReachesTo(nodes, parts, k)
    requires parts[k] in Children(r, AddrAt(parts, k))
    requires forall b {:trigger Children(r, b)} :: b != AddrAt(parts, k) && b != AddrAt(parts, k + 1) ==> Children(r, b) == Children(nodes, b)
    ensures ReachesTo(r, parts, k + 1)
  {
    forall j | 0 <= j < k
      ensures parts[j] in Children(r, AddrAt(parts, j))
    {
      var a := AddrAt(parts, j);
      AddrGrows(parts, j, k);
      AddrGrows(parts, j, k + 1);
      assert a != AddrAt(parts, k) && a != AddrAt(parts, k + 1);
      assert Children(r, a) == Children(nodes, a);
    }
  }

  /** After the parents are opened, each of them is reached. */
  lemma {:induction false} OpenedReaches(nodes: map<string, TreeNode>, rootPath: string, parts: seq<string>, k: nat)
    requires Closed(nodes) && Components(parts) && k <= |parts|
    ensures ReachesTo(Opened(nodes, rootPath, parts, k), parts, k)
  {
    if k > 0 {
      OpenedReaches(nodes, rootPath, parts, k - 1);
      StepKeepsPath(Opened(nodes, rootPath, parts, k - 1), rootPath, parts, k - 1);
    }
  }

  /** The nodes on a path already opened stay in the map as later components are opened. */
  lemma {:induction false} OpenedPrefix(nodes: map<string, TreeNode>, rootPath: string, parts: seq<string>, k: nat, n: nat)
    requires Closed(nodes) && Components(parts) && k <= n <= |parts|
    ensures AddrAt(parts, k) in Opened(nodes, rootPath, parts, n)
    decreases n
  {
    if k < n {
      OpenedPrefix(nodes, rootPath, parts, k, n - 1);
    }
  }

  /** After an insertion the walk over the components ends at the new node, and passes a node at every prefix. */
  lemma {:induction false} InsertFinds(nodes: map<string, TreeNode>, rootPath: string, parts: seq<string>, relPath: string, metadata: FileMetadata)
    requires Closed(nodes) && Components(parts) && parts != []
    ensures var r := Insert(nodes, rootPath, parts, relPath, metadata);
      Find(r, parts) == Some(TreeNode(parts[|parts| - 1], relPath, metadata, {})) &&
      forall k :: 0 <= k < |parts| ==> AddrAt(parts, k) in r && ReachesTo(r, parts, k)
  {
    var n := |parts| - 1;
    var m := Opened(nodes, rootPath, parts, n);
    var node := TreeNode(parts[n], relPath, metadata, {});
    var r := Attach(m, AddrAt(parts, n), parts[n], node);
    OpenedReaches(nodes, rootPath, parts, n);
    AttachFrame(m, AddrAt(parts, n), parts[n], node);
    assert AddrAt(parts, n + 1) == ChildAddr(AddrAt(parts, n), parts[n]);
    KeepsPath(m, r, parts, n);
    forall k | 0 <= k < |parts|
      ensures AddrAt(parts, k) in r && ReachesTo(r, parts, k)
    {
      OpenedPrefix(nodes, rootPath, parts, k, n);
    }
  }

  /**
   * After `_add_node(p, m)`, `get_node(p)` is the new node, with metadata `m`
   * and no children (a node already at `p` is replaced), and the walk passes
   * a node at every proper prefix of `p`'s components.
   */
  lemma AddedFinds(nodes: map<string, TreeNode>, rootPath: string, relPath: string, metadata: FileMetadata)
    requires Closed(nodes) && PathParts(relPath) != []
    ensures var r := WithNode(nodes, rootPath, relPath, metadata);
      var parts := PathParts(relPath);
      Lookup(r, relPath) == Some(NewNode(relPath, metadata).value) &&
      Lookup(r, relPath).value.metadata == metadata &&
      forall k :: 0 <= k < |parts| ==> AddrAt(parts, k) in r && ReachesTo(r, parts, k)
  {
    InsertFinds(nodes, rootPath, PathParts(relPath), relPath, metadata);
  }

  /** `get_node` of a path with a component missing from its parent is None. */
  lemma LookupMissing(nodes: map<string, TreeNode>, relPath: string, k: nat)
    requires k < |PathParts(relPath)| && PathParts(relPath)[k] !in Children(nodes, AddrAt(PathParts(relPath), k))
    ensures Lookup(nodes, relPath) == None
  {
  }

  /** `get_node("")` is the root. */
  lemma LookupRoot(nodes: map<string, TreeNode>)
    requires Closed(nodes)
    ensures Lookup(nodes, "") == Some(nodes[""])
  {
    assert SplitOn("", '/') == [""];
  }

  /** Only the root's children change: every step writes a non-empty address. */
  lemma {:induction false} OpenedKeepsRoot(nodes: map<string, TreeNode>, rootPath: string, parts: seq<string>, k: nat)
    requires Closed(nodes) && Components(parts) && k <= |parts|
    ensures Opened(nodes, rootPath, parts, k)[""].name == nodes[""].name
    ensures Opened(nodes, rootPath, parts, k)[""].metadata == nodes[""].metadata
  {
    if k > 0 {
      OpenedKeepsRoot(nodes, rootPath, parts, k - 1);
    }
  }

  lemma InsertKeepsRoot(nodes: map<string, TreeNode>, rootPath: string, parts: seq<string>, relPath: string, metadata: FileMetadata)
    requires Closed(nodes) && Components(parts) && parts != []
    ensures Insert(nodes, rootPath, parts, relPath, metadata)[""].name == nodes[""].name
    ensures Insert(nodes, rootPath, parts, relPath, metadata)[""].metadata == nodes[""].metadata
  {
    OpenedKeepsRoot(nodes, rootPath, parts, |parts| - 1);
  }

  /** The node `_build_tree` creates first: the root, named after the root path. */
  function RootNode(rootPath: string): TreeNode
  {
    TreeNode(PathName(rootPath), "", DirMeta(rootPath, PathName(rootPath)), {})
  }

  /** `_add_node` for each path of `paths` in turn, with its metadata from `metas`. */
  function AddedAll(nodes: map<string, TreeNode>, rootPath: string, paths: seq<string>, metas: map<string, FileMetadata>): (r: map<string, TreeNode>)
    requires Closed(nodes) && forall p :: p in paths ==> p in metas
    ensures Closed(r)
    decreases |paths|
  {
    if paths == [] then nodes
    else
      var n := |paths| - 1;
      WithNode(AddedAll(nodes, rootPath, paths[..n], metas), rootPath, paths[n], metas[paths[n]])
  }

  /** One more path of the list added. */
  lemma {:induction false} AddedAllNext(nodes: map<string, TreeNode>, rootPath: string, paths: seq<string>, metas: map<string, FileMetadata>, i: nat)
    requires Closed(nodes) && i < |paths| && forall p :: p in paths ==> p in metas
    ensures forall p :: p in paths[..i] ==> p in metas
    ensures forall p :: p in paths[..i + 1] ==> p in metas
    ensures AddedAll(nodes, rootPath, paths[..i + 1], metas) ==
      WithNode(AddedAll(nodes, rootPath, paths[..i], metas), rootPath, paths[i], metas[paths[i]])
  {
    assert paths[..i + 1][..i] == paths[..i];
  }

  /** The nodes `_build_tree` leaves: the root, then the directories in sorted order, then the files in sorted order. */
  ghost function BuiltTree(rootPath: string, scan: ScanResult): map<string, TreeNode>
  {
    var dirs := AddedAll(map["" := RootNode(rootPath)], rootPath, SortedOf(scan.directories.Keys), scan.directories);
    AddedAll(dirs, rootPath, SortedOf(scan.files.Keys), scan.files)
  }

  /** Components as `Path.parts` gives them for a '/'-separated path: none empty, none holding '/'. */
  predicate Named(parts: seq<string>)
  {
    forall k :: 0 <= k < |parts| ==> parts[k] != "" && '/' !in parts[k]
  }

  /** A relative path as the walk writes it: its components joined back by '/' give the path. */
  predicate Canonical(p: string)
  {
    var parts := PathParts(p);
    parts != [] && AddrAt(parts, |parts|) == p
  }

  /** Adding `q` replaces no node on the walk over `parts`: `q`'s address is none of the walk's addresses. */
  predicate OffPath(parts: seq<string>, q: string)
  {
    var qs := PathParts(q);
    qs == [] || forall j :: 0 <= j <= |parts| ==> AddrAt(parts, j) != AddrAt(qs, |qs|)
  }

  /** The address of a child: the parent's address and a '/' before the component, or the component alone under the root. */
  lemma ChildAddrSplit(a: string, x: string)
    requires x != "" && '/' !in x
    ensures var s := ChildAddr(a, x);
      (a == "" ==> s == x) && (a != "" ==> |s| == |a| + 1 + |x| && s[|a|] == '/' && s[..|a|] == a && s[|a| + 1..] == x)
    ensures forall t :: |ChildAddr(a, x)| - |x| <= t < |ChildAddr(a, x)| ==> ChildAddr(a, x)[t] != '/'
  {
    var s := ChildAddr(a, x);
    forall t | |s| - |x| <= t < |s|
      ensures s[t] != '/'
    {
      assert s[t] == x[t - (|s| - |x|)];
    }
  }

  /** Different parents or different components give different addresses. */
  lemma ChildAddrInjective(a: string, x: string, b: string, y: string)
    requires x != "" && y != "" && '/' !in x && '/' !in y
    requires ChildAddr(a, x) == ChildAddr(b, y)
    ensures a == b && x == y
  {
    ChildAddrSplit(a, x);
    ChildAddrSplit(b, y);
  }

  /** The address after `j` components is a prefix of the address after `k >= j`. */
  lemma {:induction false} AddrPrefix(parts: seq<string>, j: nat, k: nat)
    requires j <= k <= |parts|
    ensures |AddrAt(parts, j)| <= |AddrAt(parts, k)| && AddrAt(parts, k)[..|AddrAt(parts, j)|] == AddrAt(parts, j)
    decreases k
  {
    if j < k {
      AddrPrefix(parts, j, k - 1);
      var a := AddrAt(parts, j);
      var c := AddrAt(parts, k - 1);
      if c != "" {
        assert AddrAt(parts, k) == c + "/" + parts[k - 1];
        assert AddrAt(parts, k)[..|c|] == c;
        assert AddrAt(parts, k)[..|a|] == c[..|a|];
      }
    }
  }

  /** Attaching a child at an address off the walk keeps the walk and the metadata at its end. */
  lemma {:induction false} AttachKeepsWalk(nodes: map<string, TreeNode>, a: string, name: string, node: TreeNode, parts: seq<string>)
    requires a in nodes && name != "" && node.children == {}
    requires Find(nodes, parts).Some?
    requires forall j :: 0 <= j <= |parts| ==> AddrAt(parts, j) != ChildAddr(a, name)
    ensures var f := Find(Attach(nodes, a, name, node), parts);
      f.Some? && f.value.metadata == Find(nodes, parts).value.metadata
  {
    var r := Attach(nodes, a, name, node);
    AttachFrame(nodes, a, name, node);
    forall j | 0 <= j < |parts|
      ensures parts[j] in Children(r, AddrAt(parts, j))
    {
      assert parts[j] in Children(nodes, AddrAt(parts, j));
    }
    var e := AddrAt(parts, |parts|);
    assert e != ChildAddr(a, name);
    assert r[e].metadata == nodes[e].metadata;
  }

  /** A step of the parent loop creates only missing children, so it keeps every walk that already reaches its end. */
  lemma {:induction false} StepKeepsWalk(nodes: map<string, TreeNode>, rootPath: string, a: string, part: string, parts: seq<string>)
    requires a in nodes && part != "" && '/' !in part
    requires Named(parts) && Find(nodes, parts).Some?
    ensures var f := Find(Step(nodes, rootPath, a, part), parts);
      f.Some? && f.value.metadata == Find(nodes, parts).value.metadata
  {
    if part !in nodes[a].children {
      var c := ChildAddr(a, part);
      forall j | 0 <= j <= |parts|
        ensures AddrAt(parts, j) != c
      {
        if j > 0 {
          assert parts[j - 1] in Children(nodes, AddrAt(parts, j - 1));
          if AddrAt(parts, j) == c {
            ChildAddrInjective(AddrAt(parts, j - 1), parts[j - 1], a, part);
          }
        }
      }
      var cp := ChildAddr(a, part);
      AttachKeepsWalk(nodes, a, part, TreeNode(part, cp, DirMeta(ChildAddr(rootPath, cp), part), {}), parts);
    }
  }

  /** Opening the parents of another path keeps every walk that already reaches its end. */
  lemma {:induction false} OpenedKeepsWalk(nodes: map<string, TreeNode>, rootPath: string, qs: seq<string>, k: nat, parts: seq<string>)
    requires Closed(nodes) && Named(qs) && k <= |qs|
    requires Named(parts) && Find(nodes, parts).Some?
    ensures var f := Find(Opened(nodes, rootPath, qs, k), parts);
      f.Some? && f.value.metadata == Find(nodes, parts).value.metadata
  {
    if k > 0 {
      OpenedKeepsWalk(nodes, rootPath, qs, k - 1, parts);
      StepKeepsWalk(Opened(nodes, rootPath, qs, k - 1), rootPath, AddrAt(qs, k - 1), qs[k - 1], parts);
    }
  }

  /** `_add_node(q, m)` keeps a found path's node and metadata unless `q` lands on that path. */
  lemma {:induction false} WithNodeKeeps(nodes: map<string, TreeNode>, rootPath: string, q: string, metadata: FileMetadata, parts: seq<string>)
    requires Closed(nodes) && Named(parts) && Find(nodes, parts).Some?
    requires OffPath(parts, q)
    ensures var f := Find(WithNode(nodes, rootPath, q, metadata), parts);
      f.Some? && f.value.metadata == Find(nodes, parts).value.metadata
  {
    var qs := PathParts(q);
    if qs != [] {
      var n := |qs| - 1;
      OpenedKeepsWalk(nodes, rootPath, qs, n, parts);
      assert ChildAddr(AddrAt(qs, n), qs[n]) == AddrAt(qs, |qs|);
      AttachKeepsWalk(Opened(nodes, rootPath, qs, n), AddrAt(qs, n), qs[n], TreeNode(qs[n], q, metadata, {}), parts);
    }
  }

  /** Adding paths none of which lands on a found path keeps it and its metadata. */
  lemma {:induction false} AddedAllKeeps(nodes: map<string, TreeNode>, rootPath: string, paths: seq<string>, metas: map<string, FileMetadata>, parts: seq<string>)
    requires Closed(nodes) && forall p :: p in paths ==> p in metas
    requires Named(parts) && Find(nodes, parts).Some?
    requires forall q :: q in paths ==> OffPath(parts, q)
    ensures var f := Find(AddedAll(nodes, rootPath, paths, metas), parts);
      f.Some? && f.value.metadata == Find(nodes, parts).value.metadata
    decreases |paths|
  {
    if paths != [] {
      var n := |paths| - 1;
      AddedAllKeeps(nodes, rootPath, paths[..n], metas, parts);
      WithNodeKeeps(AddedAll(nodes, rootPath, paths[..n], metas), rootPath, paths[n], metas[paths[n]], parts);
    }
  }

  /** A path added by the fold is found with its metadata when no later path lands on it. */
  lemma {:induction false} AddedAllFinds(nodes: map<string, TreeNode>, rootPath: string, paths: seq<string>, metas: map<string, FileMetadata>, i: nat)
    requires Closed(nodes) && forall p :: p in paths ==> p in metas
    requires i < |paths| && PathParts(paths[i]) != []
    requires forall k :: i < k < |paths| ==> OffPath(PathParts(paths[i]), paths[k])
    ensures var f := Find(AddedAll(nodes, rootPath, paths, metas), PathParts(paths[i]));
      f.Some? && f.value.metadata == metas[paths[i]]
    decreases |paths|
  {
    var n := |paths| - 1;
    var before := AddedAll(nodes, rootPath, paths[..n], metas);
    if i == n {
      AddedFinds(before, rootPath, paths[n], metas[paths[n]]);
    } else {
      assert paths[..n][i] == paths[i];
      AddedAllFinds(nodes, rootPath, paths[..n], metas, i);
      WithNodeKeeps(before, rootPath, paths[n], metas[paths[n]], PathParts(paths[i]));
    }
  }

  /** In a sorted list of canonical paths, no later path lands on the walk of an earlier one: a proper prefix sorts first. */
  lemma {:induction false} SortedOffPath(paths: seq<string>, i: nat, k: nat)
    requires StrictlySorted(paths) && i < k < |paths|
    requires Canonical(paths[i]) && Canonical(paths[k])
    ensures OffPath(PathParts(paths[i]), paths[k])
  {
    var p, q := paths[i], paths[k];
    var ps := PathParts(p);
    assert StrLess(p, q);
    StrLessIrreflexive(p);
    forall j | 0 <= j <= |ps|
      ensures AddrAt(ps, j) != q
    {
      if j < |ps| {
        var c := AddrAt(ps, j);
        AddrPrefix(ps, j, |ps|);
        AddrGrows(ps, j, |ps|);
        StrLessPrefix(c, p);
        if c == q {
          StrLessTransitive(p, q, p);
        }
      }
    }
  }

  /**
   * After `_build_tree`, `get_node(p)` finds every scanned path with the
   * metadata `get_metadata(p)` gives, for canonical paths, provided no file
   * is a proper prefix of `p`: adding such a file replaces the directory node
   * on `p`'s walk with one that has no children.
   */
  lemma TreeFindsScanned(rootPath: string, scan: ScanResult, p: string)
    requires forall q :: q in scan.AllPaths() ==> Canonical(q)
    requires p in scan.AllPaths()
    requires p !in scan.files ==> forall j :: 0 <= j < |PathParts(p)| ==> AddrAt(PathParts(p), j) !in scan.files
    ensures Lookup(BuiltTree(rootPath, scan), p).Some?
    ensures Lookup(BuiltTree(rootPath, scan), p).value.metadata == scan.GetMetadata(p).value
  {
    var ps := PathParts(p);
    var init := map["" := RootNode(rootPath)];
    var ds := SortedOf(scan.directories.Keys);
    var fs := SortedOf(scan.files.Keys);
    var afterDirs := AddedAll(init, rootPath, ds, scan.directories);
    if p in scan.files {
      var i :| 0 <= i < |fs| && fs[i] == p;
      forall k | i < k < |fs|
        ensures OffPath(ps, fs[k])
      {
        SortedOffPath(fs, i, k);
      }
      AddedAllFinds(afterDirs, rootPath, fs, scan.files, i);
    } else {
      var i :| 0 <= i < |ds| && ds[i] == p;
      forall k | i < k < |ds|
        ensures OffPath(ps, ds[k])
      {
        SortedOffPath(ds, i, k);
      }
      AddedAllFinds(init, rootPath, ds, scan.directories, i);
      forall q | q in fs
        ensures OffPath(ps, q)
      {
        assert Canonical(q);
      }
      AddedAllKeeps(afterDirs, rootPath, fs, scan.files, ps);
    }
  }

  class DirectoryTree {
    var rootPath: string
    var nodes: map<string, TreeNode>

    predicate Valid()
      reads this
    {
      Closed(nodes)
    }

    /**
     * `__init__` and `_build_tree`: the root, then the scanned directories in
     * sorted order, then the files in sorted order. Every scanned path has a
     * component, as the walk's relative paths do.
     */
    constructor (rootPath: string, scan: ScanResult)
      requires forall p :: p in scan.AllPaths() ==> PathParts(p) != []
      ensures Valid() && this.rootPath == rootPath
      ensures nodes[""].name == PathName(rootPath) && nodes[""].metadata == DirMeta(rootPath, PathName(rootPath))
      ensures nodes == BuiltTree(rootPath, scan)
    {
      this.rootPath := rootPath;
      nodes := map["" := RootNode(rootPath)];
      new;
      var dirs := SortedSet(scan.directories.Keys);
      AddAll(dirs, scan.directories);
      var files := SortedSet(scan.files.Keys);
      AddAll(files, scan.files);
    }

    /** One loop of `_build_tree`: `_add_node` for each path in order, with its metadata. */
    method AddAll(paths: seq<string>, metas: map<string, FileMetadata>)
      requires Valid() && forall p :: p in paths ==> p in metas
      modifies this
      ensures Valid() && rootPath == old(rootPath)
      ensures nodes == AddedAll(old(nodes), rootPath, paths, metas)
      ensures nodes[""].name == old(nodes[""].name) && nodes[""].metadata == old(nodes[""].metadata)
    {
      ghost var start := nodes;
      for i := 0 to |paths|
        invariant Valid() && rootPath == old(rootPath)
        invariant nodes[""].name == old(nodes[""].name) && nodes[""].metadata == old(nodes[""].metadata)
        invariant forall p :: p in paths[..i] ==> p in metas
        invariant nodes == AddedAll(start, rootPath, paths[..i], metas)
      {
        AddedAllNext(start, rootPath, paths, metas, i);
        var _ := AddNode(paths[i], metas[paths[i]]);
      }
      assert paths[..|paths|] == paths;
    }

    /** `_add_node`. */
    method AddNode(relPath: string, metadata: FileMetadata) returns (r: Result<TreeNode>)
      requires Valid()
      modifies this
      ensures Valid() && rootPath == old(rootPath)
      ensures nodes == WithNode(old(nodes), rootPath, relPath, metadata)
      ensures r == NewNode(relPath, metadata)
      ensures nodes[""].name == old(nodes[""].name) && nodes[""].metadata == old(nodes[""].metadata)
    {
      var parts := PathParts(relPath);
      if parts == [] {
        return Err("IndexError");
      }
      var current := OpenParents(parts);
      var name := parts[|parts| - 1];
      var node := TreeNode(name, relPath, metadata, {});
      InsertKeepsRoot(old(nodes), rootPath, parts, relPath, metadata);
      nodes := Attach(nodes, current, name, node);
      r := Ok(node);
    }

    /** The loop of `_add_node` over all components but the last: the intermediate directories it creates, and the address it ends at. */
    method OpenParents(parts: seq<string>) returns (current: string)
      requires Valid() && Components(parts) && parts != []
      modifies this
      ensures rootPath == old(rootPath) && current == AddrAt(parts, |parts| - 1)
      ensures nodes == Opened(old(nodes), rootPath, parts, |parts| - 1)
    {
      ghost var start := nodes;
      current := "";
      var i := 0;
      while i < |parts| - 1
        invariant 0 <= i <= |parts| - 1 && rootPath == old(rootPath)
        invariant current == AddrAt(parts, i)
        invariant nodes == Opened(start, rootPath, parts, i)
      {
        var part := parts[i];
        var currentPath := ChildAddr(current, part);
        if part !in nodes[current].children {
          nodes := Attach(nodes, current, part, TreeNode(part, currentPath, DirMeta(ChildAddr(rootPath, currentPath), part), {}));
        }
        current := currentPath;
        i := i + 1;
      }
    }

    /** `get_node`. */
    method GetNode(relPath: string) returns (r: Option<TreeNode>)
      requires Valid()
      ensures r == Lookup(nodes, relPath)
    {
      if relPath == "" {
        LookupRoot(nodes);
        return Some(nodes[""]);
      }
      var parts := PathParts(relPath);
      var current := "";
      for i := 0 to |parts|
        invariant current == AddrAt(parts, i) && current in nodes
        invariant ReachesTo(nodes, parts, i)
      {
        if parts[i] !in nodes[current].children {
          LookupMissing(nodes, relPath, i);
          return None;
        }
        current := ChildAddr(current, parts[i]);
      }
      return Some(nodes[current]);
    }
  }
}
