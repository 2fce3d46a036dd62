/**
 * Application settings: the `Theme` and `DiffStyle` enums, the four settings
 * sections and the container, the conversion to a JSON-ready dictionary and
 * back, and the recent-paths lists the settings manager keeps.
 *
 * Python stores whatever `_from_dict` reads straight into the dataclass
 * fields, without checking types, so every field here holds a `Value`: the
 * JSON values `json.load` produces, plus enum members.
 */
module Settings {
  import opened Wrappers
  import opened TextUtil

  // ---------------------------------------------------------------- enums

  datatype Theme = System | Light | Dark | Custom

  /** Iteration order of the `Theme` class. */
  const Themes: seq<Theme> := [System, Light, Dark, Custom]

  function ThemeValue(t: Theme): string
  {
    match t
    case System => "system"
    case Light => "light"
    case Dark => "dark"
    case Custom => "custom"
  }

  function ThemeName(t: Theme): string
  {
    match t
    case System => "SYSTEM"
    case Light => "LIGHT"
    case Dark => "DARK"
    case Custom => "CUSTOM"
  }

  /** `Theme[name]`: the member with that exact name, if any. */
  function ThemeByName(name: string): (r: Option<Theme>)
    ensures r.Some? ==> ThemeName(r.value) == name
    ensures r.None? ==> forall t :: ThemeName(t) != name
  {
    if name == "SYSTEM" then Some(System)
    else if name == "LIGHT" then Some(Light)
    else if name == "DARK" then Some(Dark)
    else if name == "CUSTOM" then Some(Custom)
    else None
  }

  /** The first theme of `themes` whose value is `v`. */
  function ThemeByValue(themes: seq<Theme>, v: string): (r: Option<Theme>)
    ensures r.Some? ==> r.value in themes && ThemeValue(r.value) == v
    ensures r.None? ==> forall t :: t in themes ==> ThemeValue(t) != v
  {
    if themes == [] then None
    else if ThemeValue(themes[0]) == v then Some(themes[0])
    else ThemeByValue(themes[1..], v)
  }

  /**
   * `Theme.from_string`: the member whose value is the lower-cased input,
   * else the member named by the upper-cased input, else SYSTEM.
   */
  function FromString(value: string): Theme
  {
    match ThemeByValue(Themes, Lower(value))
    case Some(t) => t
    case None =>
      match ThemeByName(Upper(value))
      case Some(t) => t
      case None => System
  }

  /** Every theme name is upper-case ASCII and lower-cases to the theme's value. */
  lemma NameLowersToValue(t: Theme)
    ensures Lower(ThemeName(t)) == ThemeValue(t)
    ensures forall i :: 0 <= i < |ThemeName(t)| ==> 'A' <= ThemeName(t)[i] <= 'Z'
  {
  }

  /** An input whose upper-cased form is a name already lower-cases to that member's value. */
  lemma {:induction false} UpperNameLowersToValue(value: string, t: Theme)
    requires Upper(value) == ThemeName(t)
    ensures Lower(value) == ThemeValue(t)
  {
    NameLowersToValue(t);
    var n := ThemeName(t);
    forall i | 0 <= i < |value|
      ensures Lower(value)[i] == ThemeValue(t)[i]
    {
      assert UpperChar(value[i]) == n[i];
      assert Lower(n)[i] == LowerChar(n[i]);
    }
  }

  /**
   * What `from_string` returns, as a condition on the input: `t` exactly when
   * the lower-cased input is `t`'s value, and SYSTEM for every input that is
   * no theme's value. With ASCII case mapping the lookup by name finds
   * nothing the lookup by value has not already found.
   */
  lemma {:induction false} FromStringSpec(value: string, t: Theme)
    ensures FromString(value) == t <==>
      Lower(value) == ThemeValue(t) || (t == System && forall u :: ThemeValue(u) != Lower(value))
  {
    var byValue := ThemeByValue(Themes, Lower(value));
    if byValue.None? {
      var byName := ThemeByName(Upper(value));
      if byName.Some? {
        UpperNameLowersToValue(value, byName.value);
        assert false;
      }
      assert forall u :: ThemeValue(u) != Lower(value) by {
        forall u ensures ThemeValue(u) != Lower(value) {
          assert u == Themes[0] || u == Themes[1] || u == Themes[2] || u == Themes[3];
        }
      }
    }
  }

  /** Both spellings the settings file and the UI use come back as the same theme. */
  lemma FromStringInverts(t: Theme)
    ensures FromString(ThemeValue(t)) == t
    ensures FromString(ThemeName(t)) == t
  {
    NameLowersToValue(t);
    FromStringSpec(ThemeValue(t), t);
    FromStringSpec(ThemeName(t), t);
  }

  datatype DiffStyle = SideBySide | Unified | Inline

  function DiffStyleName(d: DiffStyle): string
  {
    match d
    case SideBySide => "SIDE_BY_SIDE"
    case Unified => "UNIFIED"
    case Inline => "INLINE"
  }

  /** The two enum classes the settings store, and their members. */
  datatype EnumClass = ThemeClass | DiffStyleClass

  datatype Member = ThemeMember(theme: Theme) | StyleMember(style: DiffStyle)

  function ClassOf(m: Member): EnumClass
  {
    match m
    case ThemeMember(_) => ThemeClass
    case StyleMember(_) => DiffStyleClass
  }

  /** `member.name`. */
  function MemberName(m: Member): string
  {
    match m
    case ThemeMember(t) => ThemeName(t)
    case StyleMember(d) => DiffStyleName(d)
  }

  /** `cls[name]`. */
  function MemberByName(c: EnumClass, name: string): (r: Option<Member>)
    ensures r.Some? ==> ClassOf(r.value) == c && MemberName(r.value) == name
  {
    match c
    case ThemeClass =>
      (match ThemeByName(name) case Some(t) => Some(ThemeMember(t)) case None => None)
    case DiffStyleClass =>
      if name == "SIDE_BY_SIDE" then Some(StyleMember(SideBySide))
      else if name == "UNIFIED" then Some(StyleMember(Unified))
      else if name == "INLINE" then Some(StyleMember(Inline))
      else None
  }

  /** `list(cls)[0]`. */
  function FirstMember(c: EnumClass): Member
  {
    match c
    case ThemeClass => ThemeMember(System)
    case DiffStyleClass => StyleMember(SideBySide)
  }

  // ---------------------------------------------------------------- values

  /** A Python value as it sits in a settings field or a JSON document. */
  datatype Value =
    | VNone
    | VBool(b: bool)
    | VInt(i: int)
    | VStr(s: string)
    | VList(items: seq<Value>)
    | VDict(entries: map<string, Value>)
    | VEnum(member: Member)

  /** No enum member anywhere inside: what `json.load` can produce. */
  predicate EnumFree(v: Value)
  {
    match v
    case VEnum(_) => false
    case VList(xs) => forall i :: 0 <= i < |xs| ==> EnumFree(xs[i])
    case VDict(m) => forall k :: k in m ==> EnumFree(m[k])
    case _ => true
  }

  /** `convert` inside `_to_dict`: enum members become their names, lists and dicts are walked. */
  function Convert(v: Value): Value
  {
    match v
    case VEnum(m) => VStr(MemberName(m))
    case VList(xs) => VList(seq(|xs|, i requires 0 <= i < |xs| => Convert(xs[i])))
    case VDict(m) => VDict(map k | k in m :: Convert(m[k]))
    case _ => v
  }

  /** The converted value is ready for `json.dump`: no enum member is left. */
  lemma {:induction false} ConvertRemovesEnums(v: Value)
    ensures EnumFree(Convert(v))
  {
    match v
    case VList(xs) =>
      forall i | 0 <= i < |xs| ensures EnumFree(Convert(v).items[i]) {
        ConvertRemovesEnums(xs[i]);
      }
    case VDict(m) =>
      forall k | k in m ensures EnumFree(Convert(v).entries[k]) {
        ConvertRemovesEnums(m[k]);
      }
    case _ =>
  }

  /** On a value without enum members `convert` changes nothing. */
  lemma {:induction false} ConvertKeepsPlain(v: Value)
    requires EnumFree(v)
    ensures Convert(v) == v
  {
    match v
    case VList(xs) =>
      forall i | 0 <= i < |xs| ensures Convert(xs[i]) == xs[i] {
        ConvertKeepsPlain(xs[i]);
      }
      assert Convert(v).items == xs;
    case VDict(m) =>
      forall k | k in m ensures Convert(m[k]) == m[k] {
        ConvertKeepsPlain(m[k]);
      }
      assert Convert(v).entries == m;
    case _ =>
  }

  /**
   * `get_enum` inside `_from_dict`: a string is looked up by name, an unknown
   * name gives the class's first member, and anything else passes through.
   */
  function GetEnum(c: EnumClass, v: Value): Value
  {
    if v.VStr? then
      match MemberByName(c, v.s)
      case Some(m) => VEnum(m)
      case None => VEnum(FirstMember(c))
    else v
  }

  /** What `get_enum` returns for each kind of input. */
  lemma GetEnumProps(c: EnumClass, v: Value)
    ensures v.VStr? ==> GetEnum(c, v).VEnum? && ClassOf(GetEnum(c, v).member) == c
    ensures v.VStr? && (forall m :: ClassOf(m) == c ==> MemberName(m) != v.s) ==>
      GetEnum(c, v) == VEnum(FirstMember(c))
    ensures !v.VStr? ==> GetEnum(c, v) == v
  {
    if v.VStr? && MemberByName(c, v.s).None? {
      assert ClassOf(FirstMember(c)) == c;
    }
  }

  /** `get_enum` undoes `convert` on every member. */
  lemma GetEnumOfName(m: Member)
    ensures GetEnum(ClassOf(m), Convert(VEnum(m))) == VEnum(m)
  {
  }

  /** `d.get(key, default)`. */
  function Get(d: map<string, Value>, key: string, default: Value): (r: Value)
    ensures key in d ==> r == d[key]
    ensures key !in d ==> r == default
  {
    if key in d then d[key] else default
  }

  // ---------------------------------------------------------------- sections

  /**
   * One dataclass field: the value a fresh instance holds, the default
   * `_from_dict` passes to `.get` (`None` for a field it does not read) and
   * the enum class `get_enum` is applied with, if any.
   */
  datatype Field = Field(initial: Value, read: Option<Value>, kind: Option<EnumClass>)

  /** A field `_from_dict` reads with the dataclass default as the `.get` default. */
  function Plain(default: Value): Field
  {
    Field(default, Some(default), None)
  }

  function StrList(xs: seq<string>): (r: Value)
    ensures r.VList? && |r.items| == |xs|
  {
    VList(seq(|xs|, i requires 0 <= i < |xs| => VStr(xs[i])))
  }

  /** The dict a list of key-value pairs builds; a later key overrides an earlier one. */
  function MapOf<V>(pairs: seq<(string, V)>): map<string, V>
  {
    if pairs == [] then map[]
    else MapOf(pairs[..|pairs| - 1])[pairs[|pairs| - 1].0 := pairs[|pairs| - 1].1]
  }

  /** Every entry of the dict comes from one of the pairs. */
  lemma {:induction false} MapOfEntries<V>(pairs: seq<(string, V)>, k: string)
    requires k in MapOf(pairs)
    ensures exists i :: 0 <= i < |pairs| && pairs[i] == (k, MapOf(pairs)[k])
  {
    var n := |pairs| - 1;
    if pairs[n].0 != k {
      MapOfEntries(pairs[..n], k);
      var i :| 0 <= i < n && pairs[..n][i] == (k, MapOf(pairs[..n])[k]);
      assert pairs[i] == pairs[..n][i];
    }
  }

  /** A key that no later pair repeats maps to its own value. */
  lemma {:induction false} MapOfAt<V>(pairs: seq<(string, V)>, i: int)
    requires 0 <= i < |pairs| && forall j :: i < j < |pairs| ==> pairs[j].0 != pairs[i].0
    ensures pairs[i].0 in MapOf(pairs) && MapOf(pairs)[pairs[i].0] == pairs[i].1
  {
    var n := |pairs| - 1;
    if i < n {
      assert pairs[..n][i] == pairs[i];
      MapOfAt(pairs[..n], i);
    }
  }

  const DefaultExcludePatterns: seq<string> :=
    ["*.pyc", "__pycache__", ".git", ".svn", ".hg", "node_modules", ".DS_Store", "Thumbs.db"]

  /** `ComparisonSettings`, field by field, with what `_from_dict` reads for each. */
  const ComparisonPairs: seq<(string, Field)> := [
    ("ignore_whitespace", Plain(VBool(false))),
    ("ignore_case", Plain(VBool(false))),
    ("ignore_blank_lines", Plain(VBool(false))),
    ("ignore_line_endings", Plain(VBool(true))),
    ("context_lines", Plain(VInt(3))),
    ("diff_style", Field(VEnum(StyleMember(SideBySide)), Some(VStr("SIDE_BY_SIDE")), Some(DiffStyleClass))),
    ("show_line_numbers", Plain(VBool(true))),
    ("word_wrap", Plain(VBool(false))),
    ("tab_size", Plain(VInt(4))),
    ("recursive", Plain(VBool(true))),
    ("follow_symlinks", Plain(VBool(false))),
    ("compare_file_contents", Plain(VBool(true))),
    ("quick_compare_by_size", Plain(VBool(true))),
    ("include_patterns", Plain(VList([]))),
    ("exclude_patterns", Plain(StrList(DefaultExcludePatterns)))]

  const ComparisonFields: map<string, Field> := MapOf(ComparisonPairs)

  /** `UISettings`: a fresh instance has LIGHT, `_from_dict` defaults to 'SYSTEM'. */
  const UIPairs: seq<(string, Field)> := [
    ("theme", Field(VEnum(ThemeMember(Light)), Some(VStr("SYSTEM")), Some(ThemeClass))),
    ("font_family", Plain(VStr("Consolas"))),
    ("font_size", Plain(VInt(10))),
    ("window_width", Plain(VInt(1200))),
    ("window_height", Plain(VInt(800))),
    ("window_maximized", Plain(VBool(false))),
    ("splitter_position", Plain(VInt(500))),
    ("show_toolbar", Plain(VBool(true))),
    ("show_statusbar", Plain(VBool(true))),
    ("recent_files_limit", Plain(VInt(5))),
    ("recent_history_limit", Plain(VInt(10)))]

  const UIFields: map<string, Field> := MapOf(UIPairs)

  const RecentFilesLimit := "recent_files_limit"

  /** `ColorSettings`: the three `dark_*` fields are not read. */
  const ColorPairs: seq<(string, Field)> := [
    ("added_background", Plain(VStr("#e6ffe6"))),
    ("removed_background", Plain(VStr("#ffe6e6"))),
    ("modified_background", Plain(VStr("#fffde6"))),
    ("identical_background", Plain(VStr("#ffffff"))),
    ("conflict_background", Plain(VStr("#fff0f0"))),
    ("added_text", Plain(VStr("#006600"))),
    ("removed_text", Plain(VStr("#660000"))),
    ("modified_text", Plain(VStr("#666600"))),
    ("line_number_color", Plain(VStr("#999999"))),
    ("line_number_background", Plain(VStr("#f5f5f5"))),
    ("folder_identical_color", Plain(VStr("#e0e0e0"))),
    ("folder_modified_color", Plain(VStr("#fffacd"))),
    ("folder_left_only_color", Plain(VStr("#e6f7ff"))),
    ("folder_right_only_color", Plain(VStr("#ffe6e6"))),
    ("folder_conflict_color", Plain(VStr("#ffcccc"))),
    ("dark_added_background", Field(VStr("#1e3a1e"), None, None)),
    ("dark_removed_background", Field(VStr("#3a1e1e"), None, None)),
    ("dark_modified_background", Field(VStr("#3a3a1e"), None, None))]

  const ColorFields: map<string, Field> := MapOf(ColorPairs)

  const DarkColors: set<string> :=
    {"dark_added_background", "dark_removed_background", "dark_modified_background"}

  /** `MergeSettings`. */
  const MergePairs: seq<(string, Field)> := [
    ("auto_resolve_identical", Plain(VBool(true))),
    ("auto_resolve_whitespace", Plain(VBool(true))),
    ("show_base_in_conflicts", Plain(VBool(true))),
    ("conflict_marker_style", Plain(VStr("git"))),
    ("create_backup", Plain(VBool(true))),
    ("backup_extension", Plain(VStr(".orig")))]

  const MergeFields: map<string, Field> := MapOf(MergePairs)

  /** A fresh dataclass instance: every field at its default. */
  function Fresh(fields: map<string, Field>): (r: map<string, Value>)
    ensures r.Keys == fields.Keys && forall k :: k in fields ==> r[k] == fields[k].initial
  {
    map k | k in fields :: fields[k].initial
  }

  /** `ApplicationSettings`: each section maps its field names to their values. */
  datatype AppSettings = AppSettings(
    comparison: map<string, Value>,
    ui: map<string, Value>,
    colors: map<string, Value>,
    merge: map<string, Value>,
    recentLeftPaths: Value,
    recentRightPaths: Value,
    recentComparisons: Value,
    lastDirectory: Value)

  /**
   * The four field tables. The conversions take them as a parameter, so that
   * one proof covers every section; `Tables` holds the program's own.
   */
  datatype Schema = Schema(
    comparison: map<string, Field>,
    ui: map<string, Field>,
    colors: map<string, Field>,
    merge: map<string, Field>)

  const Tables: Schema := Schema(ComparisonFields, UIFields, ColorFields, MergeFields)

  /** Every section has exactly its table's fields. */
  predicate Shaped(schema: Schema, s: AppSettings)
  {
    s.comparison.Keys == schema.comparison.Keys && s.ui.Keys == schema.ui.Keys
    && s.colors.Keys == schema.colors.Keys && s.merge.Keys == schema.merge.Keys
  }

  /** A fresh container: every section fresh, the lists empty. */
  function Defaults(schema: Schema): (r: AppSettings)
    ensures Shaped(schema, r)
  {
    AppSettings(
      Fresh(schema.comparison), Fresh(schema.ui), Fresh(schema.colors), Fresh(schema.merge),
      VList([]), VList([]), VList([]), VStr(""))
  }

  // ---------------------------------------------------------------- _to_dict

  /** `convert` of one dataclass (after `asdict`): each field converted under its name. */
  function SectionDict(vals: map<string, Value>): (r: map<string, Value>)
    ensures r.Keys == vals.Keys && forall k :: k in vals ==> r[k] == Convert(vals[k])
  {
    map k | k in vals :: Convert(vals[k])
  }

  /** The container's entries `_to_dict` writes. */
  function TopEntries(s: AppSettings): seq<(string, Value)>
  {
    [("comparison", VDict(SectionDict(s.comparison))),
     ("ui", VDict(SectionDict(s.ui))),
     ("colors", VDict(SectionDict(s.colors))),
     ("merge", VDict(SectionDict(s.merge))),
     ("recent_left_paths", Convert(s.recentLeftPaths)),
     ("recent_right_paths", Convert(s.recentRightPaths)),
     ("recent_comparisons", Convert(s.recentComparisons)),
     ("last_directory", Convert(s.lastDirectory))]
  }

  /** `_to_dict`. */
  function ToDict(s: AppSettings): Value
  {
    VDict(MapOf(TopEntries(s)))
  }

  // ---------------------------------------------------------------- _from_dict

  /** The keyword argument `_from_dict` passes for one field; unread fields keep their default. */
  function FieldFrom(f: Field, key: string, d: map<string, Value>): Value
  {
    match f.read
    case None => f.initial
    case Some(default) =>
      var v := Get(d, key, default);
      match f.kind
      case None => v
      case Some(c) => GetEnum(c, v)
  }

  /** One dataclass rebuilt from its section of the document. */
  function SectionFrom(fields: map<string, Field>, d: map<string, Value>): (r: map<string, Value>)
    ensures r.Keys == fields.Keys && forall k :: k in fields ==> r[k] == FieldFrom(fields[k], k, d)
  {
    map k | k in fields :: FieldFrom(fields[k], k, d)
  }

  /**
   * `data.get(key, {})` followed by `.get` on the result: a missing section
   * reads as empty, a section that is not a dict raises AttributeError.
   */
  function Section(data: map<string, Value>, key: string): (r: Option<map<string, Value>>)
    ensures key !in data ==> r == Some(map[])
    ensures key in data ==> (r.Some? <==> data[key].VDict?)
  {
    if key !in data then Some(map[])
    else if data[key].VDict? then Some(data[key].entries)
    else None
  }

  /** `_from_dict` on a dict. */
  function FromEntries(schema: Schema, d: map<string, Value>): (r: Result<AppSettings>)
    ensures r.Ok? ==> Shaped(schema, r.value)
    ensures r.Err? ==> r.error == "AttributeError"
  {
    var comparison := Section(d, "comparison");
    var ui := Section(d, "ui");
    var colors := Section(d, "colors");
    var merge := Section(d, "merge");
    if comparison.None? || ui.None? || colors.None? || merge.None? then Err("AttributeError")
    else
      Ok(AppSettings(
        SectionFrom(schema.comparison, comparison.value),
        SectionFrom(schema.ui, ui.value),
        SectionFrom(schema.colors, colors.value),
        SectionFrom(schema.merge, merge.value),
        Get(d, "recent_left_paths", VList([])),
        Get(d, "recent_right_paths", VList([])),
        Get(d, "recent_comparisons", VList([])),
        Get(d, "last_directory", VStr(""))))
  }

  /** `_from_dict`: a document that is not a dict raises AttributeError at its first `.get`. */
  function FromDict(schema: Schema, data: Value): (r: Result<AppSettings>)
    ensures r.Ok? ==> Shaped(schema, r.value)
    ensures !data.VDict? ==> r == Err("AttributeError")
    ensures r.Err? ==> r.error == "AttributeError"
  {
    if !data.VDict? then Err("AttributeError")
    else FromEntries(schema, data.entries)
  }

  /**
   * `SettingsManager.load` once the file is read: a missing file, a file that
   * is not JSON and a document `_from_dict` raises on all give the defaults.
   */
  function Load(schema: Schema, stored: Option<Result<Value>>): (r: AppSettings)
    ensures Shaped(schema, r)
    ensures stored.None? || stored.value.Err? ==> r == Defaults(schema)
    ensures stored.Some? && stored.value.Ok? && FromDict(schema, stored.value.value).Ok? ==>
      r == FromDict(schema, stored.value.value).value
    ensures stored.Some? && stored.value.Ok? && FromDict(schema, stored.value.value).Err? ==>
      r == Defaults(schema)
  {
    match stored
    case None => Defaults(schema)
    case Some(Err(_)) => Defaults(schema)
    case Some(Ok(data)) =>
      match FromDict(schema, data)
      case Ok(s) => s
      case Err(_) => Defaults(schema)
  }

  // ---------------------------------------------------------------- round trip

  /** Exactly the table's fields; enum fields hold members of their class, the others JSON values. */
  predicate SectionWellFormed(fields: map<string, Field>, vals: map<string, Value>)
  {
    vals.Keys == fields.Keys &&
    forall k :: k in fields ==>
      match fields[k].kind
      case Some(c) => vals[k].VEnum? && ClassOf(vals[k].member) == c
      case None => EnumFree(vals[k])
  }

  predicate WellFormed(schema: Schema, s: AppSettings)
  {
    SectionWellFormed(schema.comparison, s.comparison) && SectionWellFormed(schema.ui, s.ui)
    && SectionWellFormed(schema.colors, s.colors) && SectionWellFormed(schema.merge, s.merge)
    && EnumFree(s.recentLeftPaths) && EnumFree(s.recentRightPaths)
    && EnumFree(s.recentComparisons) && EnumFree(s.lastDirectory)
  }

  /** What a section reads back: the saved value of each read field, the default of the others. */
  function Restored(fields: map<string, Field>, vals: map<string, Value>): (r: map<string, Value>)
    requires vals.Keys == fields.Keys
    ensures r.Keys == fields.Keys
  {
    map k | k in fields :: if fields[k].read.None? then fields[k].initial else vals[k]
  }

  /** Every section of the document reads back what was written, field by field. */
  lemma SectionRoundTrip(fields: map<string, Field>, vals: map<string, Value>)
    requires SectionWellFormed(fields, vals)
    ensures SectionFrom(fields, SectionDict(vals)) == Restored(fields, vals)
  {
    var d := SectionDict(vals);
    var read, restored := SectionFrom(fields, d), Restored(fields, vals);
    forall k | k in fields ensures read[k] == restored[k] {
      FieldRoundTrip(fields[k], k, vals[k], d);
    }
    assert read.Keys == restored.Keys;
  }

  /** One field reads back the value saved under its key. */
  lemma FieldRoundTrip(f: Field, key: string, v: Value, d: map<string, Value>)
    requires key in d && d[key] == Convert(v)
    requires match f.kind
      case Some(c) => v.VEnum? && ClassOf(v.member) == c
      case None => EnumFree(v)
    ensures FieldFrom(f, key, d) == if f.read.None? then f.initial else v
  {
    if f.kind.None? {
      ConvertKeepsPlain(v);
    } else {
      GetEnumOfName(v.member);
    }
  }

  /** In a section whose every field is read, the round trip is the identity. */
  lemma AllReadRestored(fields: map<string, Field>, vals: map<string, Value>)
    requires vals.Keys == fields.Keys && forall k :: k in fields ==> fields[k].read.Some?
    ensures Restored(fields, vals) == vals
  {
  }

  /** Every field is read in the comparison, UI and merge sections. */
  predicate SchemaOk(schema: Schema)
  {
    (forall k :: k in schema.comparison ==> schema.comparison[k].read.Some?)
    && (forall k :: k in schema.ui ==> schema.ui[k].read.Some?)
    && (forall k :: k in schema.merge ==> schema.merge[k].read.Some?)
  }

  /** The sections read back from the dicts `_to_dict` writes. */
  lemma SectionsRoundTrip(schema: Schema, s: AppSettings)
    requires SchemaOk(schema) && WellFormed(schema, s)
    ensures SectionFrom(schema.comparison, SectionDict(s.comparison)) == s.comparison
    ensures SectionFrom(schema.ui, SectionDict(s.ui)) == s.ui
    ensures SectionFrom(schema.colors, SectionDict(s.colors)) == Restored(schema.colors, s.colors)
    ensures SectionFrom(schema.merge, SectionDict(s.merge)) == s.merge
  {
    SectionRoundTrip(schema.comparison, s.comparison);
    SectionRoundTrip(schema.ui, s.ui);
    SectionRoundTrip(schema.colors, s.colors);
    SectionRoundTrip(schema.merge, s.merge);
    AllReadRestored(schema.comparison, s.comparison);
    AllReadRestored(schema.ui, s.ui);
    AllReadRestored(schema.merge, s.merge);
  }

  /** Each key of the container finds the entry `_to_dict` wrote for it. */
  lemma TopLookups(s: AppSettings)
    ensures var d := ToDict(s).entries;
      && Section(d, "comparison") == Some(SectionDict(s.comparison))
      && Section(d, "ui") == Some(SectionDict(s.ui))
      && Section(d, "colors") == Some(SectionDict(s.colors))
      && Section(d, "merge") == Some(SectionDict(s.merge))
      && Get(d, "recent_left_paths", VList([])) == Convert(s.recentLeftPaths)
      && Get(d, "recent_right_paths", VList([])) == Convert(s.recentRightPaths)
      && Get(d, "recent_comparisons", VList([])) == Convert(s.recentComparisons)
      && Get(d, "last_directory", VStr("")) == Convert(s.lastDirectory)
  {
    var e := TopEntries(s);
    MapOfAt(e, 0);
    MapOfAt(e, 1);
    MapOfAt(e, 2);
    MapOfAt(e, 3);
    MapOfAt(e, 4);
    MapOfAt(e, 5);
    MapOfAt(e, 6);
    MapOfAt(e, 7);
  }

  /** A dict holding the saved form of every section and list reads back as the settings. */
  lemma ReadsBack(schema: Schema, s: AppSettings, d: map<string, Value>)
    requires SchemaOk(schema) && WellFormed(schema, s)
    requires Section(d, "comparison") == Some(SectionDict(s.comparison))
    requires Section(d, "ui") == Some(SectionDict(s.ui))
    requires Section(d, "colors") == Some(SectionDict(s.colors))
    requires Section(d, "merge") == Some(SectionDict(s.merge))
    requires Get(d, "recent_left_paths", VList([])) == Convert(s.recentLeftPaths)
    requires Get(d, "recent_right_paths", VList([])) == Convert(s.recentRightPaths)
    requires Get(d, "recent_comparisons", VList([])) == Convert(s.recentComparisons)
    requires Get(d, "last_directory", VStr("")) == Convert(s.lastDirectory)
    ensures FromEntries(schema, d) == Ok(s.(colors := Restored(schema.colors, s.colors)))
  {
    SectionsRoundTrip(schema, s);
    ConvertKeepsPlain(s.recentLeftPaths);
    ConvertKeepsPlain(s.recentRightPaths);
    ConvertKeepsPlain(s.recentComparisons);
    ConvertKeepsPlain(s.lastDirectory);
  }

  /**
   * Saving and loading again restores every field `_from_dict` reads; fields
   * it does not read come back as defaults.
   */
  lemma RoundTrip(schema: Schema, s: AppSettings)
    requires SchemaOk(schema) && WellFormed(schema, s)
    ensures FromDict(schema, ToDict(s)) == Ok(s.(colors := Restored(schema.colors, s.colors)))
  {
    TopLookups(s);
    ReadsBack(schema, s, ToDict(s).entries);
  }

  /** The program's tables meet what the round trip needs. */
  lemma TablesOk()
    ensures SchemaOk(Tables)
  {
    ComparisonAllRead();
    UIAllRead();
    MergeAllRead();
  }

  lemma ComparisonAllRead()
    ensures forall k :: k in ComparisonFields ==> ComparisonFields[k].read.Some?
  {
    forall k | k in ComparisonFields ensures ComparisonFields[k].read.Some? {
      MapOfEntries(ComparisonPairs, k);
    }
  }

  lemma UIAllRead()
    ensures forall k :: k in UIFields ==> UIFields[k].read.Some?
  {
    forall k | k in UIFields ensures UIFields[k].read.Some? {
      MapOfEntries(UIPairs, k);
    }
  }

  lemma MergeAllRead()
    ensures forall k :: k in MergeFields ==> MergeFields[k].read.Some?
  {
    forall k | k in MergeFields ensures MergeFields[k].read.Some? {
      MapOfEntries(MergePairs, k);
    }
  }

  /** The colour fields `_from_dict` does not read are the three dark ones. */
  lemma UnreadColors()
    ensures forall k :: k in ColorFields && ColorFields[k].read.None? ==> k in DarkColors
    ensures forall k :: k in DarkColors ==> k in ColorFields && ColorFields[k].read.None?
  {
    forall k | k in ColorFields ensures ColorFields[k].read.None? ==> k in DarkColors {
      MapOfEntries(ColorPairs, k);
    }
    MapOfAt(ColorPairs, 15);
    MapOfAt(ColorPairs, 16);
    MapOfAt(ColorPairs, 17);
  }

  /** Whatever colours section is loaded, the dark colours are the defaults. */
  lemma LoadedDarkColoursAreDefaults(d: map<string, Value>)
    ensures forall k :: k in DarkColors ==> k in ColorFields && SectionFrom(ColorFields, d)[k] == ColorFields[k].initial
  {
    UnreadColors();
  }

  /** A section all of whose `.get` defaults give the fresh values reads an empty dict as fresh. */
  lemma EmptySection(fields: map<string, Field>)
    requires forall k :: k in fields ==> FieldFrom(fields[k], k, map[]) == fields[k].initial
    ensures SectionFrom(fields, map[]) == Fresh(fields)
  {
  }

  /** An empty section reads as a fresh one in the comparison, colour and merge sections. */
  lemma EmptyComparisonDefaults()
    ensures SectionFrom(ComparisonFields, map[]) == Fresh(ComparisonFields)
  {
    forall k | k in ComparisonFields ensures FieldFrom(ComparisonFields[k], k, map[]) == ComparisonFields[k].initial {
      MapOfEntries(ComparisonPairs, k);
    }
    EmptySection(ComparisonFields);
  }

  lemma EmptyColorsDefaults()
    ensures SectionFrom(ColorFields, map[]) == Fresh(ColorFields)
  {
    forall k | k in ColorFields ensures FieldFrom(ColorFields[k], k, map[]) == ColorFields[k].initial {
      MapOfEntries(ColorPairs, k);
    }
    EmptySection(ColorFields);
  }

  lemma EmptyMergeDefaults()
    ensures SectionFrom(MergeFields, map[]) == Fresh(MergeFields)
  {
    forall k | k in MergeFields ensures FieldFrom(MergeFields[k], k, map[]) == MergeFields[k].initial {
      MapOfEntries(MergePairs, k);
    }
    EmptySection(MergeFields);
  }

  /** A document without `ui.theme` loads SYSTEM, where a fresh `UISettings` has LIGHT. */
  lemma EmptyUITheme()
    ensures "theme" in UIFields
    ensures SectionFrom(UIFields, map[]) == Fresh(UIFields)["theme" := VEnum(ThemeMember(System))]
    ensures Fresh(UIFields)["theme"] == VEnum(ThemeMember(Light))
  {
    forall k | k in UIFields ensures FieldFrom(UIFields[k], k, map[]) == if k == "theme" then VEnum(ThemeMember(System)) else UIFields[k].initial {
      MapOfEntries(UIPairs, k);
    }
    MapOfAt(UIPairs, 0);
  }

  // ---------------------------------------------------------------- recent paths

  /** The limit `recent[:limit]` uses; a non-integer limit raises TypeError. */
  function SliceLimit(limit: Value): (r: Result<Option<int>>)
  {
    match limit
    case VInt(n) => Ok(Some(n))
    case VBool(b) => Ok(Some(if b then 1 else 0))
    case VNone => Ok(None)
    case _ => Err("TypeError")
  }

  /** The list `add_recent_path` builds before trimming. */
  function Promoted(items: seq<Value>, path: string): seq<Value>
  {
    MoveToFront(items, VStr(path))
  }

  /** `recent[:limit]` of the promoted list. */
  function Trimmed(items: seq<Value>, path: string, limit: Option<int>): seq<Value>
  {
    match limit
    case None => Promoted(items, path)
    case Some(n) => SliceTo(Promoted(items, path), n)
  }

  /**
   * With a positive limit the path comes first, the list is no longer than
   * the limit, the entries after it are the old ones in their old order,
   * and a list without duplicates stays so, holding the path once.
   */
  lemma {:induction false} TrimmedProps(items: seq<Value>, path: string, n: int)
    requires n > 0
    ensures var r := Trimmed(items, path, Some(n));
      && r != [] && r[0] == VStr(path)
      && |r| <= n
      && r[1..] == RemoveFirst(items, VStr(path))[..|r| - 1]
      && (NoDuplicates(items) ==> NoDuplicates(r) && Count(r, VStr(path)) == 1)
  {
    MoveToFrontTrimmed(items, VStr(path), n);
  }

  /**
   * A zero limit empties the list; a negative one drops that many entries
   * from the end, possibly the path itself.
   */
  lemma NonPositiveLimit(items: seq<Value>, path: string, n: int)
    requires n <= 0
    ensures n == 0 ==> Trimmed(items, path, Some(n)) == []
    ensures n < 0 ==> (Trimmed(items, path, Some(n)) ==
      if |Promoted(items, path)| + n < 0 then [] else Promoted(items, path)[..|Promoted(items, path)| + n])
  {
    var p := Promoted(items, path);
    assert Trimmed(items, path, Some(n)) == Slice(p, 0, n);
  }

  /**
   * The settings manager: the field tables it works with, the settings it has
   * loaded, if any, and the settings file's content (missing, unreadable, or
   * the parsed document).
   */
  class SettingsManager {
    const schema: Schema
    var current: Option<AppSettings>
    var stored: Option<Result<Value>>

    /** The UI table has the recent-files limit; loaded settings have one value per field. */
    predicate Valid()
      reads this
    {
      RecentFilesLimit in schema.ui && (current.Some? ==> Shaped(schema, current.value))
    }

    /** The settings `settings` returns: the loaded ones, or what `load` would give. */
    function Effective(): (r: AppSettings)
      reads this
      ensures Valid() ==> Shaped(schema, r)
    {
      if current.Some? then current.value else Load(schema, stored)
    }

    constructor (stored: Option<Result<Value>>)
      ensures Valid() && schema == Tables && this.stored == stored && current.None?
    {
      schema := Tables;
      assert UIPairs[9].0 == RecentFilesLimit;
      MapOfAt(UIPairs, 9);
      this.stored := stored;
      current := None;
    }

    /** The `settings` property: loads on first use. */
    method GetSettings() returns (s: AppSettings)
      requires Valid()
      modifies this
      ensures Valid() && stored == old(stored)
      ensures s == old(Effective()) && current == Some(s)
    {
      if current.None? {
        current := Some(Load(schema, stored));
      }
      s := current.value;
    }

    /**
     * `add_recent_path`: moves `path` to the front of the chosen list and
     * trims it to the UI's recent-files limit. A limit of another type makes
     * the slice raise, after the list has been rearranged in place.
     */
    method AddRecentPath(path: string, isLeft: bool) returns (r: Result<()>)
      requires Valid()
      requires (if isLeft then Effective().recentLeftPaths else Effective().recentRightPaths).VList?
      modifies this
      ensures Valid() && stored == old(stored)
      ensures var before := old(Effective());
        var items := (if isLeft then before.recentLeftPaths else before.recentRightPaths).items;
        var limit := SliceLimit(before.ui[RecentFilesLimit]);
        var list := if limit.Ok? then VList(Trimmed(items, path, limit.value)) else VList(Promoted(items, path));
        && current == Some(if isLeft then before.(recentLeftPaths := list) else before.(recentRightPaths := list))
        && r == (if limit.Ok? then Ok(()) else Err(limit.error))
    {
      var s := GetSettings();
      var recent := if isLeft then s.recentLeftPaths.items else s.recentRightPaths.items;
      if VStr(path) in recent {
        recent := RemoveFirst(recent, VStr(path));
      }
      recent := [VStr(path)] + recent;
      var limit := SliceLimit(s.ui[RecentFilesLimit]);
      if limit.Err? {
        current := Some(if isLeft then s.(recentLeftPaths := VList(recent)) else s.(recentRightPaths := VList(recent)));
        return Err(limit.error);
      }
      var trimmed := if limit.value.None? then recent else SliceTo(recent, limit.value.value);
      current := Some(if isLeft then s.(recentLeftPaths := VList(trimmed)) else s.(recentRightPaths := VList(trimmed)));
      r := Ok(());
    }
  }
}
