/**
 * Values the theme manager works with: modes, theme definitions, the
 * host runtime's theme registry, the theme folder, path handling and
 * the error kinds of the theme loader.
 */
module ThemeModel {
  import opened Wrappers

  // ---------------------------------------------------------------------
  // Modes, definitions and themes
  // ---------------------------------------------------------------------

  /** The two display variants a definition may provide. */
  datatype Mode = Dark | Light

  function ModeName(m: Mode): string
  {
    match m
    case Dark => "dark"
    case Light => "light"
  }

  /** The modes in the fixed order in which they are registered. */
  const ThemeModes: seq<Mode> := [Dark, Light]

  /** Style attributes of one mode; opaque to the theme manager. */
  type Attributes = map<string, string>

  /** A parsed theme file: top-level key (normally "dark"/"light") to attributes. */
  type Definition = map<string, Attributes>

  /** A runtime theme object as handed to the host runtime. */
  datatype Theme = Theme(name: string, attributes: Attributes)

  predicate HasMode(def: Definition)
  {
    "dark" in def || "light" in def
  }

  /** The registered name of one mode of a theme: `<base>_<mode>`. */
  function ThemeKey(base: string, m: Mode): string
  {
    base + "_" + ModeName(m)
  }

  /** The last character of a registered name tells its mode apart. */
  lemma ThemeKeyLast(base: string, m: Mode)
    ensures |ThemeKey(base, m)| == |base| + 1 + |ModeName(m)|
    ensures ThemeKey(base, m)[|ThemeKey(base, m)| - 1] == (if m == Dark then 'k' else 't')
    ensures ThemeKey(base, m)[..|base|] == base
  {
  }

  /** Distinct (base, mode) pairs never share a registered name. */
  lemma ThemeKeyInjective(b1: string, m1: Mode, b2: string, m2: Mode)
    ensures ThemeKey(b1, m1) == ThemeKey(b2, m2) <==> b1 == b2 && m1 == m2
  {
    ThemeKeyLast(b1, m1);
    ThemeKeyLast(b2, m2);
  }

  // ---------------------------------------------------------------------
  // Paths
  // ---------------------------------------------------------------------

  /** POSIX `os.path.basename`: the part of `path` after its last '/'. */
  function Basename(path: string): (b: string)
    ensures '/' !in b
  {
    if path == [] then []
    else if path[|path| - 1] == '/' then []
    else
      var init := path[..|path| - 1];
      assert path == init + [path[|path| - 1]];
      Basename(init) + [path[|path| - 1]]
  }

  /** The base name is the longest suffix of `path` without a separator. */
  lemma {:induction false} BasenameIsLastComponent(path: string)
    ensures var b := Basename(path);
      && |b| <= |path| && b == path[|path| - |b|..]
      && (|b| < |path| ==> path[|path| - |b| - 1] == '/')
  {
    if path != [] && path[|path| - 1] != '/' {
      BasenameIsLastComponent(path[..|path| - 1]);
    }
  }

  /** A name without a separator is its own base name. */
  lemma BasenameOfPlain(s: string)
    requires '/' !in s
    ensures Basename(s) == s
  {
    BasenameIsLastComponent(s);
  }

  lemma BasenameIdempotent(s: string)
    ensures Basename(Basename(s)) == Basename(s)
  {
  }

  /** Whatever precedes the last separator has no influence on the base name. */
  lemma {:induction false} BasenameAfterSeparator(dir: string, s: string)
    ensures Basename(dir + "/" + s) == Basename(s)
  {
    var p := dir + "/" + s;
    if s == [] {
      assert p[|p| - 1] == '/';
    } else {
      var init := s[..|s| - 1];
      assert p[|p| - 1] == s[|s| - 1];
      assert p[..|p| - 1] == dir + "/" + init;
      if s[|s| - 1] != '/' {
        BasenameAfterSeparator(dir, init);
      }
    }
  }

  function ThemeFileName(base: string): string
  {
    base + ".json"
  }

  /** `Path(folder) / (base + ".json")`, with `folder` already normalised. */
  function ThemePath(folder: string, base: string): string
  {
    folder + "/" + ThemeFileName(base)
  }

  /** `path` names a file directly inside `folder`, not in a sub- or parent directory. */
  predicate DirectlyIn(folder: string, path: string)
  {
    |path| > |folder| && path[..|folder| + 1] == folder + "/" && '/' !in path[|folder| + 1..]
  }

  /** A stripped base name can only resolve to a file directly inside the theme folder. */
  lemma ThemePathDirectlyIn(folder: string, base: string)
    requires '/' !in base
    ensures DirectlyIn(folder, ThemePath(folder, base))
  {
  }

  // ---------------------------------------------------------------------
  // Directory listing and `.json` selection
  // ---------------------------------------------------------------------

  /** ASCII `str.lower` on one character. */
  function LowerChar(c: char): char
  {
    if 'A' <= c <= 'Z' then (c as int + 32) as char else c
  }

  /** `name.lower().endswith(".json")`, character by character. */
  predicate IsJsonName(name: string)
  {
    var n := |name|;
    && n >= 5
    && name[n - 5] == '.'
    && LowerChar(name[n - 4]) == 'j'
    && LowerChar(name[n - 3]) == 's'
    && LowerChar(name[n - 2]) == 'o'
    && LowerChar(name[n - 1]) == 'n'
  }

  /**
   * `os.path.splitext(name)[0]` for a selected name: the name without its
   * final five-character `.json` suffix (in any case).
   */
  function Stem(name: string): (stem: string)
    requires IsJsonName(name)
    ensures |stem| + 5 == |name| && stem + name[|stem|..] == name
    ensures '.' !in name[|stem| + 1..]
  {
    name[..|name| - 5]
  }

  /** The file read for a listed name is the listed name exactly when its suffix is lower-case. */
  lemma StemRoundTrip(name: string)
    requires IsJsonName(name)
    ensures ThemeFileName(Stem(name)) == name <==> name[|name| - 5..] == ".json"
  {
  }

  /**
   * A file with an upper-case `.JSON` suffix is selected, but a different
   * name is read for it. Files are looked up by exact name, as on a
   * case-sensitive file system; on a case-insensitive one `dusk.json`
   * would open `dusk.JSON` after all.
   */
  lemma UpperCaseSuffixReadsOtherFile()
    ensures IsJsonName("dusk.JSON")
    ensures ThemeFileName(Stem("dusk.JSON")) == "dusk.json"
  {
  }

  /** Every file the loader reads for a theme name is one the `.json` filter selects, and its stem is that name. */
  lemma ThemeFileSelected(base: string)
    ensures IsJsonName(ThemeFileName(base)) && Stem(ThemeFileName(base)) == base
  {
    assert ThemeFileName(base)[..|base|] == base;
  }

  /** The stems of the `.json` entries of a listing, in listing order. */
  function JsonStems(listing: seq<string>): (stems: seq<string>)
    ensures |stems| <= |listing|
  {
    if listing == [] then []
    else if IsJsonName(listing[0]) then [Stem(listing[0])] + JsonStems(listing[1..])
    else JsonStems(listing[1..])
  }

  /** Every `.json` entry contributes its stem, and only `.json` entries do. */
  lemma {:induction false} JsonStemsSelects(listing: seq<string>)
    ensures forall f :: f in listing && IsJsonName(f) ==> Stem(f) in JsonStems(listing)
    ensures forall s :: s in JsonStems(listing) ==> exists f :: f in listing && IsJsonName(f) && s == Stem(f)
  {
    if listing != [] {
      JsonStemsSelects(listing[1..]);
      assert forall f :: f in listing ==> f == listing[0] || f in listing[1..];
      assert forall f :: f in listing[1..] ==> f in listing;
    }
  }

  /** One step of the listing loop: entry `i` contributes its stem if it is a `.json` entry. */
  lemma JsonStemsStep(listing: seq<string>, i: nat)
    requires i < |listing|
    ensures JsonStems(listing[i..])
         == (if IsJsonName(listing[i]) then [Stem(listing[i])] else []) + JsonStems(listing[i + 1..])
  {
  }

  // ---------------------------------------------------------------------
  // Registry of the host runtime (`available_themes`)
  // ---------------------------------------------------------------------

  /**
   * An insertion-ordered dictionary from theme name to theme: `order`
   * holds the keys in the order a Python dict reports them.
   */
  datatype Registry = Registry(order: seq<string>, themes: map<string, Theme>)
  {
    ghost predicate Valid()
    {
      && (forall i, j :: 0 <= i < j < |order| ==> order[i] != order[j])
      && (forall k :: k in themes <==> k in order)
      && (forall k :: k in themes ==> themes[k].name == k)
    }
  }

  /** `register_theme(t)`: a dict assignment under the theme's own name. */
  function Register(r: Registry, t: Theme): Registry
  {
    Registry(if t.name in r.themes then r.order else r.order + [t.name], r.themes[t.name := t])
  }

  /**
   * Registering adds or overwrites exactly the theme's own name, keeps
   * every other entry, leaves existing names where they were in the
   * order, and preserves the registry invariant.
   */
  lemma RegisterEffect(r: Registry, t: Theme)
    ensures var r' := Register(r, t);
      && r'.themes.Keys == r.themes.Keys + {t.name}
      && r'.themes[t.name] == t
      && (forall k :: k in r.themes && k != t.name ==> r'.themes[k] == r.themes[k])
      && r.order <= r'.order
      && (r.Valid() ==> r'.Valid())
  {
  }

  /** Registers `<base>_<mode>` for each of `modes` present in `def`, in the order of `modes`. */
  function RegisterModes(r: Registry, base: string, def: Definition, modes: seq<Mode>): Registry
    decreases |modes|
  {
    if modes == [] then r
    else
      var before := RegisterModes(r, base, def, modes[..|modes| - 1]);
      var m := modes[|modes| - 1];
      if ModeName(m) in def then Register(before, Theme(ThemeKey(base, m), def[ModeName(m)]))
      else before
  }

  /** The names registered for `base` from `def`: one per mode it provides. */
  function RegisteredKeys(base: string, def: Definition, modes: seq<Mode>): set<string>
  {
    set m | m in modes && ModeName(m) in def :: ThemeKey(base, m)
  }

  /**
   * Registering the modes of `def` adds exactly one `<base>_<mode>`
   * name per mode present, bound to that mode's attributes, and leaves
   * every other entry as it was.
   */
  lemma {:induction false} RegisterModesContents(r: Registry, base: string, def: Definition, modes: seq<Mode>)
    ensures var r' := RegisterModes(r, base, def, modes);
      && r'.themes.Keys == r.themes.Keys + RegisteredKeys(base, def, modes)
      && (forall m :: m in modes && ModeName(m) in def ==>
            r'.themes[ThemeKey(base, m)] == Theme(ThemeKey(base, m), def[ModeName(m)]))
      && (forall k :: k in r.themes && k !in RegisteredKeys(base, def, modes) ==> r'.themes[k] == r.themes[k])
    decreases |modes|
  {
    if modes != [] {
      var init := modes[..|modes| - 1];
      var m := modes[|modes| - 1];
      RegisterModesContents(r, base, def, init);
      var before := RegisterModes(r, base, def, init);
      if ModeName(m) in def {
        RegisterEffect(before, Theme(ThemeKey(base, m), def[ModeName(m)]));
      }
      assert modes == init + [m];
      forall m' | m' in modes && ModeName(m') in def
        ensures ThemeKey(base, m') == ThemeKey(base, m) ==> m' == m
      {
        ThemeKeyInjective(base, m', base, m);
      }
    }
  }

  /** Registering the modes of `def` keeps the registry invariant and every name's place in the order. */
  lemma {:induction false} RegisterModesKeepsValid(r: Registry, base: string, def: Definition, modes: seq<Mode>)
    requires r.Valid()
    ensures var r' := RegisterModes(r, base, def, modes);
      r'.Valid() && r.order <= r'.order
    decreases |modes|
  {
    if modes != [] {
      var init := modes[..|modes| - 1];
      var m := modes[|modes| - 1];
      RegisterModesKeepsValid(r, base, def, init);
      if ModeName(m) in def {
        RegisterEffect(RegisterModes(r, base, def, init), Theme(ThemeKey(base, m), def[ModeName(m)]));
      }
    }
  }

  /**
   * The order in which the registration loop adds names: a new
   * `<base>_dark` entry, when "dark" is present, goes before a new
   * `<base>_light` entry, when "light" is present; a name already
   * registered keeps its place.
   */
  lemma RegisterDarkThenLight(r: Registry, base: string, def: Definition)
    ensures var dark, light := ThemeKey(base, Dark), ThemeKey(base, Light);
      RegisterModes(r, base, def, ThemeModes).order
        == r.order
           + (if "dark" in def && dark !in r.themes then [dark] else [])
           + (if "light" in def && light !in r.themes then [light] else [])
  {
  }

  // ---------------------------------------------------------------------
  // Theme folder and the reader
  // ---------------------------------------------------------------------

  /** The error kinds the secure reader can raise; both are caught by the loader. */
  datatype ReadError = SecureFileOpsError | OSError

  /** What the secure reader returns for one file. */
  datatype ReadResult = Read(def: Definition) | Failed(error: ReadError)

  /**
   * The theme folder: whether it exists, its entries in `os.listdir`
   * order, and, for each entry, what the secure reader makes of it.
   */
  datatype Folder = Folder(present: bool, listing: seq<string>, files: map<string, ReadResult>)
  {
    ghost predicate Valid()
    {
      && (forall i, j :: 0 <= i < j < |listing| ==> listing[i] != listing[j])
      && (forall n :: n in files <==> n in listing)
      && (!present ==> listing == [])
    }
  }

  /** The file that is always seeded, whatever the configured fallback name. */
  const DefaultThemeFile: string := "par.json"

  /**
   * `ensure_default_theme`: create the folder if missing, then copy the
   * bundled `asset` to `par.json` if no such file exists.
   */
  function Seed(d: Folder, asset: ReadResult): (r: Folder)
    ensures r.present && DefaultThemeFile in r.files
    ensures DefaultThemeFile in d.files ==> r.files == d.files && r.listing == d.listing
    ensures DefaultThemeFile !in d.files ==> r.files[DefaultThemeFile] == asset
    ensures forall n :: n in d.files ==> n in r.files && r.files[n] == d.files[n]
    ensures d.listing <= r.listing && r.files.Keys == d.files.Keys + {DefaultThemeFile}
    ensures d.Valid() ==> r.Valid() && DefaultThemeFile in r.listing
  {
    var created := if d.present then d else d.(present := true);
    if DefaultThemeFile in created.files then created
    else Folder(true, created.listing + [DefaultThemeFile], created.files[DefaultThemeFile := asset])
  }

  /** A second `ensure_default_theme` changes nothing. */
  lemma SeedIdempotent(d: Folder, asset: ReadResult)
    requires d.Valid()
    ensures Seed(Seed(d, asset), asset) == Seed(d, asset)
  {
  }

  /**
   * `read_json_file(theme_folder / (base + ".json"))`: a missing file
   * fails with `FileNotFoundError`, an `OSError`.
   */
  function ReadTheme(dir: Folder, base: string): ReadResult
  {
    if ThemeFileName(base) in dir.files then dir.files[ThemeFileName(base)] else Failed(OSError)
  }

  /** A file that is read successfully but provides neither mode. */
  predicate ModeLess(dir: Folder, base: string)
  {
    ReadTheme(dir, base).Read? && !HasMode(ReadTheme(dir, base).def)
  }

  // ---------------------------------------------------------------------
  // Error kinds
  // ---------------------------------------------------------------------

  datatype ErrorKind = InvalidTheme | ThemeMode

  /** An `InvalidThemeError` (or its subclass `ThemeModeError`): its `theme_name` and `str()`. */
  datatype ThemeError = ThemeError(kind: ErrorKind, themeName: string, message: string)

  function InvalidThemeError(themeName: string): ThemeError
  {
    ThemeError(InvalidTheme, themeName, "Invalid theme: " + themeName)
  }

  function ModeSentence(themeName: string): string
  {
    "Theme '" + themeName + "' does not have at least one of 'dark' or 'light' modes."
  }

  /**
   * `ThemeModeError(name)` as written: it passes the whole sentence to
   * `InvalidThemeError.__init__`, which stores it as `theme_name`.
   */
  function ThemeModeErrorAsWritten(themeName: string): ThemeError
  {
    var e := InvalidThemeError(ModeSentence(themeName));
    e.(kind := ThemeMode)
  }

  lemma ThemeModeErrorAsWrittenLosesName(themeName: string)
    ensures ThemeModeErrorAsWritten(themeName).themeName != themeName
    ensures ThemeModeErrorAsWritten(themeName).themeName == ModeSentence(themeName)
  {
  }

  /** `ThemeModeError(name)` with `theme_name` set to the theme's name and the same message. */
  function ThemeModeError(themeName: string): ThemeError
  {
    ThemeError(ThemeMode, themeName, "Invalid theme: " + ModeSentence(themeName))
  }

  lemma ThemeModeErrorKeepsName(themeName: string)
    ensures ThemeModeError(themeName).themeName == themeName
    ensures ThemeModeError(themeName).message == ThemeModeErrorAsWritten(themeName).message
    ensures ThemeModeError(themeName).kind == ThemeMode
  {
  }

  /** What a call of the theme manager can raise to its caller. */
  datatype Raised =
    | AppNotInitialized
    | Invalid(error: ThemeError)
    | KeyError(key: string)

  /** One `log_it` call of the loader (always with notify=True, severity "error"). */
  datatype LogEvent =
    | LoadFailed(themeName: string, error: ReadError)
    | FallbackFailed(fallbackName: string)

  // ---------------------------------------------------------------------
  // Projections of the facade
  // ---------------------------------------------------------------------

  /** `available_themes[name]`, with a missing key as `KeyError`. */
  function Lookup(r: Registry, name: string): (res: Result<Theme, Raised>)
    requires r.Valid()
    ensures res.Success? <==> name in r.order
    ensures res.Success? ==> res.value.name == name && res.value == r.themes[name]
    ensures res.Failure? ==> res.error == KeyError(name)
  {
    if name in r.themes then Success(r.themes[name]) else Failure(KeyError(name))
  }

  /** `[(theme, theme) for theme in keys]`. */
  function SelectOptions(keys: seq<string>): (opts: seq<(string, string)>)
    ensures |opts| == |keys|
    ensures forall i :: 0 <= i < |keys| ==> opts[i] == (keys[i], keys[i])
  {
    if keys == [] then [] else [(keys[0], keys[0])] + SelectOptions(keys[1..])
  }

  function Labels(opts: seq<(string, string)>): (keys: seq<string>)
    ensures |keys| == |opts|
    ensures forall i :: 0 <= i < |opts| ==> keys[i] == opts[i].0
  {
    if opts == [] then [] else [opts[0].0] + Labels(opts[1..])
  }

  /** The labels of the options are the listed keys, in the same order. */
  lemma SelectOptionsLabels(keys: seq<string>)
    ensures Labels(SelectOptions(keys)) == keys
  {
  }
}
