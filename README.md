# Theme manager of parllama, modelled in Dafny

parllama is a terminal front end for Ollama, built on Textual. Its theme
manager (`src/parllama/theme_manager.py`) keeps a folder of JSON theme files
under the data directory and seeds that folder with the bundled `par.json`.
It loads every `*.json` file in the folder into the Textual application, so
that a definition with a `"dark"` and/or a `"light"` mode becomes the themes
`<name>_dark` / `<name>_light`. When a file cannot be read, it falls back to
the configured fallback theme. It also answers lookups, lists the
registered names and changes the active theme.

The model has four files:

- `wrappers.dfy`: `Option` and `Result`, which stand for Python's `None` and
  for a raised exception.
- `theme_model.dfy` (module `ThemeModel`): the values.
  - The modes and their names, theme definitions and theme keys.
  - `os.path.basename` on `/`-separated paths, the `.json` filter and
    `splitext` on a directory listing.
  - The application's theme registry, an insertion-ordered dictionary.
  - The theme folder with the secure reader's answer for each file, and the
    seeding of `par.json`.
  - The two error classes and the projections behind `get_theme`,
    `list_themes` and `theme_select_options`.
- `theme_loading.dfy` (module `ThemeLoading`): the control flow of
  `load_theme` and `load_themes` as functions from the observable state to
  the new state and the error that escapes, if any. The observable state is
  the registry, the paths handed to the reader, and the `log_it` calls. The
  lemmas about that control flow are here too.
- `theme_manager.dfy` (module `ThemeManagement`): the imperative side.
  - `App` holds the application's registry and active theme.
  - `ThemeManager` has the source's methods. They update its fields and the
    application in place, and each is proved against the functions of
    `ThemeLoading`.

Python exceptions that escape a method are returned as an `Option<Raised>`
or a `Result<_, Raised>`. The raised values are:

- `Exception("App is not initialized")`, as `AppNotInitialized`;
- a `ThemeModeError`, as `Invalid(e)`;
- a dictionary `KeyError`, as `KeyError(k)`.

A file that is missing reads as an `OSError`, because `FileNotFoundError`
is one.

Two consequences of the code are worth stating up front:

- **`ThemeModeError` escapes.** `ThemeModeError` is not in the `except`
  tuple at line 96, which names only `SecureFileOpsError` and `OSError`.
  So a `ThemeModeError` raised at line 86 escapes a non-fallback
  `load_theme`, and it stops the `load_themes` loop at that entry.
  `ThemeLoading.LoadRaises`, `ThemeLoading.LoadAllRaises` and
  `ThemeLoading.LoadAllRaisesFirst` state this.
- **Which file is seeded.** `ensure_default_theme` copies the fixed
  `par.json`, whatever the configured fallback theme is called.

The loader itself uses the corrected forms of the two defects listed under
"## Findings": the fallback guard and the `theme_name` of a
`ThemeModeError`. "## Left out" says exactly where the model departs from
the code because of them.

## Model

| member | source | states |
|---|---|---|
| ThemeModel.ThemeKeyInjective | src/parllama/theme_manager.py:88-95 | the registered name `f"{theme_name}_{mode}"` determines both the theme name and the mode, so the dark and light registrations of one file never collide |
| ThemeModel.Basename | src/parllama/theme_manager.py:78 | the stripped name never contains a path separator |
| ThemeModel.BasenameIsLastComponent | src/parllama/theme_manager.py:78 | `os.path.basename` returns a suffix of the path, and when it is shorter than the path a `/` precedes it, so it is the last component |
| ThemeModel.BasenameOfPlain | src/parllama/theme_manager.py:78 | a name without `/` is unchanged by `os.path.basename` |
| ThemeModel.BasenameIdempotent | src/parllama/theme_manager.py:78 | stripping twice is stripping once |
| ThemeModel.BasenameAfterSeparator | src/parllama/theme_manager.py:112-114 | `load_theme(f"{theme_folder}/{stem}")` strips back to the stripped stem, whatever the folder path |
| ThemeModel.ThemePathDirectlyIn | src/parllama/theme_manager.py:78-79 | the file read for a stripped name is `<theme_folder>/<name>.json`, directly inside the theme folder |
| ThemeModel.IsJsonName | src/parllama/theme_manager.py:113 | `file.lower().endswith(".json")`: at least five characters, a dot, then `j`, `s`, `o`, `n` in either case |
| ThemeModel.Stem | src/parllama/theme_manager.py:114 | `os.path.splitext(file)[0]` for a selected entry: the entry minus its five-character suffix, so the stem followed by that suffix is the entry and the suffix holds no further dot |
| ThemeModel.ThemeFileSelected | src/parllama/theme_manager.py:113-114 | every file `load_theme` reads for a name, `<name>.json`, passes the `.json` filter and its stem is that name |
| ThemeModel.StemRoundTrip | src/parllama/theme_manager.py:112-114 | for a selected entry, re-appending `.json` to its `splitext` stem gives back the entry exactly when its suffix is lower-case `.json` |
| ThemeModel.UpperCaseSuffixReadsOtherFile | src/parllama/theme_manager.py:113-114 | the case-insensitive filter selects `dusk.JSON`, but `load_theme` then reads `dusk.json` |
| ThemeModel.JsonStems | src/parllama/theme_manager.py:112-114 | selecting entries and taking their stems never yields more names than the listing has |
| ThemeModel.JsonStemsSelects | src/parllama/theme_manager.py:112-114 | every entry whose lower-cased name ends in `.json` contributes its stem, and every stem comes from such an entry |
| ThemeModel.JsonStemsStep | src/parllama/theme_manager.py:112-114 | one iteration of the listing loop: entry `i` contributes its stem exactly when it passes the filter |
| ThemeModel.Register | src/parllama/theme_manager.py:90 | `register_theme(t)`: assignment into the ordered `available_themes` under the theme's own name; a new name goes at the end |
| ThemeModel.RegisterModes | src/parllama/theme_manager.py:88-95 | the `for mode in ThemeModes` loop: registers `<base>_<mode>` with that mode's attributes for each mode present, in the order of the modes |
| ThemeModel.RegisterEffect | src/parllama/theme_manager.py:90-95 | `register_theme` binds the theme under its own name, keeps every other entry and every name's position, appends a new name at the end, and keeps the registry invariant |
| ThemeModel.RegisterModesContents | src/parllama/theme_manager.py:88-95 | the mode loop adds exactly one `<name>_<mode>` per mode present in the definition, bound to that mode's attributes, and changes nothing else |
| ThemeModel.RegisterModesKeepsValid | src/parllama/theme_manager.py:88-95 | the mode loop keeps names distinct and named after their keys, and keeps every existing name where it was |
| ThemeModel.RegisterDarkThenLight | src/parllama/theme_manager.py:18 | a new `<name>_dark` is listed before a new `<name>_light`, because `ThemeModes` is `["dark", "light"]`; a name already registered keeps its place |
| ThemeModel.Seed | src/parllama/theme_manager.py:62-71 | `ensure_default_theme` leaves the folder present with `par.json` in it, copies the bundled file only when `par.json` is missing, never overwrites an existing file, and only adds `par.json` to the folder |
| ThemeModel.SeedIdempotent | src/parllama/theme_manager.py:62-71 | seeding twice is seeding once |
| ThemeModel.ThemeModeErrorAsWritten | src/parllama/theme_manager.py:31-36 | the code's `ThemeModeError(name)`: an `InvalidThemeError` built from the whole sentence, so both its `theme_name` and its message are derived from the sentence |
| ThemeModel.ThemeModeError | src/parllama/theme_manager.py:31-36 | the corrected `ThemeModeError(name)`: kind `ThemeModeError`, `theme_name` the theme's name, and the code's message |
| ThemeModel.ThemeModeErrorAsWrittenLosesName | src/parllama/theme_manager.py:31-36 | as written, a `ThemeModeError`'s `theme_name` is the whole sentence and not the theme's name |
| ThemeModel.ThemeModeErrorKeepsName | src/parllama/theme_manager.py:22-36 | the corrected `ThemeModeError` carries the theme's name with the same message and kind |
| ThemeModel.ReadTheme | src/parllama/theme_manager.py:83 | `read_json_file(<folder>/<base>.json)`: the folder's recorded outcome for that file name, or an `OSError` when no such file exists |
| ThemeModel.Lookup | src/parllama/theme_manager.py:116-120 | `available_themes[name]` succeeds exactly when the name is registered, returns the theme of that name, and otherwise raises `KeyError(name)` |
| ThemeModel.SelectOptions | src/parllama/theme_manager.py:129-131 | one `(name, name)` pair per name, in order |
| ThemeModel.Labels | src/parllama/theme_manager.py:129-131 | the first components of the option pairs, in order |
| ThemeModel.SelectOptionsLabels | src/parllama/theme_manager.py:129-131 | the option labels are exactly the listed names in order |
| ThemeLoading.FallbackNeverRetries | src/parllama/theme_manager.py:98-101 | with the corrected guard, the fallback never retries itself, so recursion stops after one level |
| ThemeLoading.GuardsAgree | src/parllama/theme_manager.py:99 | the guard as written and the corrected guard agree whenever the fallback name contains no `/` |
| ThemeLoading.AsWrittenFallbackRetriesItself | src/parllama/theme_manager.py:99-101 | as written, a fallback name containing `/` passes the guard for its own stripped name, so the fallback call retries itself |
| ThemeLoading.Load | src/parllama/theme_manager.py:73-106 | every `load_theme` call reads at least once, and at most twice, and only when the guard lets it retry |
| ThemeLoading.LoadReads | src/parllama/theme_manager.py:78-101 | the paths read are exactly `<folder>/<name>.json`, followed by the fallback's file when that read failed and the guard lets it retry |
| ThemeLoading.LoadStaysInFolder | src/parllama/theme_manager.py:78-101 | every path `load_theme` reads is a file directly inside the theme folder, whatever directories the given name has |
| ThemeLoading.FallbackReadsOnce | src/parllama/theme_manager.py:99-101 | loading the fallback reads exactly its own file, once |
| ThemeLoading.LoadRaisesAsWritten | src/parllama/theme_manager.py:31-36 | the error the model's `load_theme` raises is the code's `ThemeModeError`, with the same kind and message, except that `theme_name` holds the theme's name |
| ThemeLoading.LoadRaises | src/parllama/theme_manager.py:81-106 | the only error that escapes `load_theme` is `ThemeModeError(name)`, exactly when the theme's own file reads without either mode; read errors and every error of the fallback are swallowed |
| ThemeLoading.LoadRegistry | src/parllama/theme_manager.py:83-101 | the registry changes only by registering the modes of the file that was read successfully: the theme's own, or the fallback's after a failed read |
| ThemeLoading.LoadLog | src/parllama/theme_manager.py:96-106 | a failed read logs one error; a failed fallback logs its own read error, or, when its file has no mode, the caller logs "Failed to load fallback theme" |
| ThemeLoading.FallbackLoad | src/parllama/theme_manager.py:100-106 | the fallback's own call logs only its read failure, and raises exactly when its file has no mode |
| ThemeLoading.LoadKeepsRegistry | src/parllama/theme_manager.py:73-106 | `load_theme` keeps the registry invariant and never removes or reorders a theme |
| ThemeLoading.LoadRegistersModes | src/parllama/theme_manager.py:88-95 | after a successful read every mode present is registered as `<name>_<mode>` with its attributes |
| ThemeLoading.LoadListing | src/parllama/theme_manager.py:112-114 | the loop of `load_themes` over the raw listing: each entry the `.json` filter selects is loaded as `<folder>/<stem>`, stopping at the first error that escapes; `LoadThemes`, `LoadListed` and `SetApp` are stated against it |
| ThemeLoading.LoadAll | src/parllama/theme_manager.py:112-114 | `load_themes` only adds to the paths read |
| ThemeLoading.LoadListingIsLoadAll | src/parllama/theme_manager.py:112-114 | walking the directory listing and loading each selected entry is loading the selected stems in listing order |
| ThemeLoading.LoadAttemptsOf | src/parllama/theme_manager.py:112-114 | prefixing the folder path to a stem changes neither what is read nor whether it raises |
| ThemeLoading.LoadAllReads | src/parllama/theme_manager.py:108-114 | `load_themes` reads, in listing order, the files of every selected entry up to and including the first one without modes, with the fallback's file after each failed read |
| ThemeLoading.LoadAllRaises | src/parllama/theme_manager.py:108-114 | `load_themes` raises exactly when some selected entry's file reads but has neither mode |
| ThemeLoading.FirstModeLess | src/parllama/theme_manager.py:112-114 | the position of the first selected entry whose file has no mode: that entry has none, and no entry before it lacks both |
| ThemeLoading.LoadAllRaisesFirst | src/parllama/theme_manager.py:108-114 | the error `load_themes` raises is the `ThemeModeError` of the first entry without modes, and nothing is raised when there is no such entry |
| ThemeLoading.LoadAllKeepsRegistry | src/parllama/theme_manager.py:108-114 | `load_themes` keeps the registry invariant and never removes or reorders a theme |
| ThemeLoading.LoadAllRegisters | src/parllama/theme_manager.py:108-114 | when `load_themes` completes, every mode of every selected file that reads is registered under `<stem>_<mode>` |
| ThemeManagement.App.RegisterTheme | src/parllama/theme_manager.py:90-95 | the application's registry becomes the registration of the theme, and the active theme is unchanged |
| ThemeManagement.ThemeManager.constructor | src/parllama/theme_manager.py:44-55 | a new manager has no application, has read nothing and has logged nothing |
| ThemeManagement.ThemeManager.SetApp | src/parllama/theme_manager.py:57-60 | attaching the application seeds the folder and loads the listing into the application, and raises what `load_themes` raises; without an application it raises `App is not initialized` |
| ThemeManagement.ThemeManager.EnsureDefaultTheme | src/parllama/theme_manager.py:62-71 | the folder becomes the seeded folder |
| ThemeManagement.ThemeManager.LoadTheme | src/parllama/theme_manager.py:73-106 | without an application it raises and changes nothing; otherwise the registry, reads and log become exactly those of `Load`, the error raised is that of `Load`, and the folder and active theme are unchanged |
| ThemeManagement.ThemeManager.RegisterDefinition | src/parllama/theme_manager.py:88-95 | the mode loop leaves the registry equal to the registration of each present mode, dark then light |
| ThemeManagement.ThemeManager.LoadThemes | src/parllama/theme_manager.py:108-114 | the folder is seeded, and the registry, reads, log and raised error are those of loading the seeded listing; the registry invariant is kept; without an application it raises and reads nothing |
| ThemeManagement.ThemeManager.LoadListed | src/parllama/theme_manager.py:112-114 | the loop over the listing yields exactly the state and error of `LoadListing` |
| ThemeManagement.ThemeManager.GetTheme | src/parllama/theme_manager.py:116-120 | raises without an application; otherwise it is the registry lookup, and a theme it returns carries the requested name |
| ThemeManagement.ThemeManager.ListThemes | src/parllama/theme_manager.py:122-127 | raises exactly when there is no application; otherwise returns the registered names in registration order, and a name is listed exactly when it is registered |
| ThemeManagement.ThemeManager.ThemeSelectOptions | src/parllama/theme_manager.py:129-131 | raises exactly when there is no application; otherwise returns pairs whose labels are the listed names in order and whose two components are equal |
| ThemeManagement.ThemeManager.ChangeTheme | src/parllama/theme_manager.py:133-137 | raises without an application; otherwise sets the active theme to the given name and leaves the registry unchanged |

## Left out

- `SecureFileOperations`: its size limit, extension list, filename
  sanitising and JSON parsing are not modelled. Each file's read outcome is
  given by the folder: a definition, `SecureFileOpsError`, or `OSError`.
- JSON values and Textual's `Theme` constructor: attributes are opaque
  string maps. A mode whose value is not a mapping, or whose keys `Theme`
  rejects, makes the real code raise `TypeError` mid-loop. Such a definition
  has no counterpart in the model.
- `ThemeModel.LowerChar` folds ASCII letters only. Python's `str.lower` also
  folds other letters. This matters only for names that spell `.json` with
  non-ASCII characters.
- Paths are `/`-separated strings. Windows separators and `pathlib`
  normalisation are not modelled.
- `os.path.splitext` is modelled only on names with a `.json` suffix, as
  the name without its last five characters. The model treats a name such
  as `.json` like any other. Python's special case for leading dots is not
  modelled.
- Failures of `mkdir` and `shutil.copy` in `ensure_default_theme` are not
  modelled. Seeding always succeeds, and a newly seeded `par.json` is listed
  after the existing entries. The real `os.listdir` order is arbitrary.
- Directory entries are assumed to be plain names without `/`. That is what
  `os.listdir` returns.
- The text of log messages, and the notify and severity flags, are reduced
  to a `LogEvent` naming the theme and the error kind.
- `change_theme` hands the name to Textual, which rejects unknown themes
  with its own exception. That check belongs to Textual, which is not part
  of this model.
- The settings singleton is reduced to the two values used: the data
  directory's theme folder and the fallback name.
- The module-level `theme_manager` instance is not modelled.
- `ParEventSystemBase` is not part of this model, beyond holding `app`.
- `ThemeLoading.Load`: its fallback guard is the corrected
  `Retries(base, fallback)`, which compares the stripped name with the
  stripped fallback name. Line 99 compares it with the raw fallback name.
  `ThemeLoading.GuardsAgree` proves that both decide alike whenever the
  fallback name contains no `/`. For a fallback name with a `/`, the model
  reads the fallback once. The code instead repeats the fallback call until
  Python's recursion limit is hit.
- `ThemeLoading.Load`: the `ThemeModeError` it raises carries the theme's
  name as `theme_name`. The code's carries the whole sentence.
  `ThemeLoading.LoadRaisesAsWritten` proves that the two errors agree in
  kind and message.
- `ThemeModel.UpperCaseSuffixReadsOtherFile`: file names are looked up
  exactly, as on a case-sensitive file system. On a case-insensitive one,
  reading `dusk.json` would open `dusk.JSON`.
- `ThemeManagement.ThemeManager.LoadThemes`: without an application it
  returns right after seeding. The source would get the same result at its
  first `load_theme` call, because the seeded listing always holds
  `par.json`.
- `ThemeManagement.ThemeManager.LoadTheme`: it does not itself state that
  the registry invariant is kept. That is stated by
  `ThemeLoading.LoadKeepsRegistry` about `Load`, which `LoadTheme` matches
  exactly, and `LoadThemes` re-establishes the invariant through it.

## Findings

| source | as written | input that shows it | evidently intended | confidence | as-written member | corrected member |
|---|---|---|---|---|---|---|
| src/parllama/theme_manager.py:99 | the retry guard compares the stripped name with the raw fallback name | fallback name `"sub/par"` and an unreadable `par.json`: the fallback call strips to `"par"`, its read fails, and `"par"` differs from `"sub/par"`, so it calls itself again at every level. This goes on until Python's recursion limit raises `RecursionError`, which the `except Exception` at line 102 of an enclosing call swallows: about a thousand reads and log entries instead of one | the fallback is never retried from within its own load (recursion depth 1) | not executed | ThemeLoading.AsWrittenFallbackRetriesItself | ThemeLoading.FallbackReadsOnce |
| src/parllama/theme_manager.py:34-36 | `ThemeModeError` passes its whole sentence to `InvalidThemeError.__init__`, which stores it as `theme_name` | `ThemeModeError("dusk").theme_name` is `"Theme 'dusk' does not have at least one of 'dark' or 'light' modes."` | `theme_name` is the theme's name, as for every `InvalidThemeError` | not executed | ThemeModel.ThemeModeErrorAsWrittenLosesName | ThemeModel.ThemeModeErrorKeepsName |
