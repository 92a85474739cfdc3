/**
 * The control flow of `load_theme` and `load_themes` as functions from
 * the observable state (registry, reads issued, log) to the new state
 * and the error, if any, that escapes to the caller.
 */
module ThemeLoading {
  import opened Wrappers
  import opened ThemeModel

  /** The theme folder path and the configured fallback theme name. */
  datatype Config = Config(folder: string, fallback: string)

  /** What loading changes or records: the runtime's registry, the paths read, the log. */
  datatype Env = Env(registry: Registry, readPaths: seq<string>, log: seq<LogEvent>)

  datatype Outcome = Outcome(env: Env, raised: Option<ThemeError>)

  // ---------------------------------------------------------------------
  // The fallback guard
  // ---------------------------------------------------------------------

  /**
   * The guard of theme_manager.py line 99 as written: the stripped name
   * is compared with the fallback name as configured.
   */
  predicate RetriesAsWritten(base: string, fallback: string)
  {
    base != fallback
  }

  /**
   * The guard as intended: retry unless the failed theme is the fallback
   * theme itself, i.e. compare against the fallback's own base name.
   */
  predicate Retries(base: string, fallback: string)
  {
    base != Basename(fallback)
  }

  /** The fallback theme never retries itself. */
  lemma FallbackNeverRetries(fallback: string)
    ensures !Retries(Basename(fallback), fallback)
  {
  }

  /** For a fallback name without a separator both guards decide alike. */
  lemma GuardsAgree(base: string, fallback: string)
    requires '/' !in fallback
    ensures Retries(base, fallback) <==> RetriesAsWritten(base, fallback)
  {
    BasenameOfPlain(fallback);
  }

  /**
   * As written, a fallback name containing '/' passes the guard when the
   * fallback itself fails to read, so `load_theme(fallback)` calls
   * `load_theme(fallback)` again with the same argument, level after
   * level, until Python's recursion limit raises `RecursionError`, which
   * the `except Exception` of an enclosing call swallows.
   */
  lemma AsWrittenFallbackRetriesItself(fallback: string)
    requires '/' in fallback
    ensures RetriesAsWritten(Basename(fallback), fallback)
  {
  }

  // ---------------------------------------------------------------------
  // load_theme
  // ---------------------------------------------------------------------

  function Lift(raised: Option<ThemeError>): Option<Raised>
  {
    match raised
    case None => None
    case Some(e) => Some(Invalid(e))
  }

  /**
   * One call `load_theme(name)` with the application set. It strips
   * `name` to its base name, reads `<folder>/<base>.json`, rejects a
   * definition without modes by raising, registers each present mode,
   * and after a failed read retries once with the fallback name,
   * swallowing whatever that attempt raises.
   */
  function Load(c: Config, dir: Folder, e: Env, name: string): (o: Outcome)
    ensures e.readPaths < o.env.readPaths
    ensures |o.env.readPaths| <= |e.readPaths| + (if Retries(Basename(name), c.fallback) then 2 else 1)
    decreases if Retries(Basename(name), c.fallback) then 1 else 0
  {
    var base := Basename(name);
    var path := ThemePath(c.folder, base);
    var read := e.(readPaths := e.readPaths + [path]);
    match ReadTheme(dir, base)
    case Read(def) =>
      if !HasMode(def) then Outcome(read, Some(ThemeModeError(base)))
      else Outcome(read.(registry := RegisterModes(read.registry, base, def, ThemeModes)), None)
    case Failed(err) =>
      var logged := read.(log := read.log + [LoadFailed(base, err)]);
      if Retries(base, c.fallback) then
        var fallback := Load(c, dir, logged, c.fallback);
        if fallback.raised.Some? then
          Outcome(fallback.env.(log := fallback.env.log + [FallbackFailed(c.fallback)]), None)
        else Outcome(fallback.env, None)
      else Outcome(logged, None)
  }

  /** The registry after reading `base` once: its modes registered if it has any. */
  function ApplyRead(dir: Folder, r: Registry, base: string): Registry
  {
    match ReadTheme(dir, base)
    case Read(def) => if HasMode(def) then RegisterModes(r, base, def, ThemeModes) else r
    case Failed(_) => r
  }

  /** The paths one top-level call reads, in order. */
  function AttemptReads(c: Config, dir: Folder, name: string): seq<string>
  {
    var base := Basename(name);
    [ThemePath(c.folder, base)]
    + (if ReadTheme(dir, base).Failed? && Retries(base, c.fallback)
       then [ThemePath(c.folder, Basename(c.fallback))] else [])
  }

  /** The log entries one top-level call writes, in order. */
  function AttemptLog(c: Config, dir: Folder, name: string): seq<LogEvent>
  {
    var base := Basename(name);
    var fb := Basename(c.fallback);
    match ReadTheme(dir, base)
    case Read(_) => []
    case Failed(err) =>
      [LoadFailed(base, err)]
      + if !Retries(base, c.fallback) then []
        else match ReadTheme(dir, fb)
          case Failed(err') => [LoadFailed(fb, err')]
          case Read(def) => if HasMode(def) then [] else [FallbackFailed(c.fallback)]
  }

  /**
   * `load_theme` reads `<folder>/<base>.json` first, and afterwards at
   * most the fallback's file, only when the first read failed and the
   * theme is not the fallback.
   */
  lemma LoadReads(c: Config, dir: Folder, e: Env, name: string)
    ensures Load(c, dir, e, name).env.readPaths == e.readPaths + AttemptReads(c, dir, name)
  {
  }

  /** Every path `load_theme` reads names a file directly inside the theme folder. */
  lemma LoadStaysInFolder(c: Config, dir: Folder, e: Env, name: string)
    ensures var o := Load(c, dir, e, name);
      forall i :: |e.readPaths| <= i < |o.env.readPaths| ==> DirectlyIn(c.folder, o.env.readPaths[i])
  {
    LoadReads(c, dir, e, name);
    ThemePathDirectlyIn(c.folder, Basename(name));
    ThemePathDirectlyIn(c.folder, Basename(c.fallback));
  }

  /** The fallback theme is read exactly once, whatever happens. */
  lemma FallbackReadsOnce(c: Config, dir: Folder, e: Env)
    ensures Load(c, dir, e, c.fallback).env.readPaths == e.readPaths + [ThemePath(c.folder, Basename(c.fallback))]
  {
  }

  /**
   * The only error that escapes `load_theme` is `ThemeModeError(base)`,
   * and it escapes exactly when the theme's own file reads but has
   * neither mode; read errors, and the fallback's errors, never escape.
   */
  lemma LoadRaises(c: Config, dir: Folder, e: Env, name: string)
    ensures Load(c, dir, e, name).raised
         == if ModeLess(dir, Basename(name)) then Some(ThemeModeError(Basename(name))) else None
  {
  }

  /**
   * The error `Load` raises is the one the code raises, with `theme_name`
   * corrected to the theme's name: same kind, same message.
   */
  lemma LoadRaisesAsWritten(c: Config, dir: Folder, e: Env, name: string)
    ensures var o := Load(c, dir, e, name);
      o.raised.Some? ==>
        o.raised.value == ThemeModeErrorAsWritten(Basename(name)).(themeName := Basename(name))
  {
  }

  /**
   * The registry changes only through registration: by the theme's own
   * modes after a successful read, or by the fallback's modes after a
   * failed read that is retried; a definition without modes registers
   * nothing.
   */
  lemma LoadRegistry(c: Config, dir: Folder, e: Env, name: string)
    ensures Load(c, dir, e, name).env.registry
         == if ReadTheme(dir, Basename(name)).Failed? && Retries(Basename(name), c.fallback)
            then ApplyRead(dir, e.registry, Basename(c.fallback))
            else ApplyRead(dir, e.registry, Basename(name))
  {
  }

  /**
   * A failed read is logged, and a failed fallback attempt is logged
   * once more: its read error by the fallback call itself, its
   * `ThemeModeError` by the caller that swallows it.
   */
  lemma LoadLog(c: Config, dir: Folder, e: Env, name: string)
    ensures Load(c, dir, e, name).env.log == e.log + AttemptLog(c, dir, name)
  {
  }

  /** The fallback's own call: one read, its failure logged, its `ThemeModeError` raised. */
  lemma FallbackLoad(c: Config, dir: Folder, e: Env)
    ensures var o := Load(c, dir, e, c.fallback);
      var fb := Basename(c.fallback);
      && o.env.log == e.log + (if ReadTheme(dir, fb).Failed? then [LoadFailed(fb, ReadTheme(dir, fb).error)] else [])
      && o.raised.Some? == ModeLess(dir, fb)
  {
  }

  /** Loading never removes a theme nor moves an existing name. */
  lemma LoadKeepsRegistry(c: Config, dir: Folder, e: Env, name: string)
    requires e.registry.Valid()
    ensures var r := Load(c, dir, e, name).env.registry;
      r.Valid() && e.registry.order <= r.order && e.registry.themes.Keys <= r.themes.Keys
  {
    LoadRegistry(c, dir, e, name);
    var base := Basename(name);
    var target := if ReadTheme(dir, base).Failed? && Retries(base, c.fallback) then Basename(c.fallback) else base;
    match ReadTheme(dir, target)
    case Read(def) =>
      if HasMode(def) {
        RegisterModesContents(e.registry, target, def, ThemeModes);
        RegisterModesKeepsValid(e.registry, target, def, ThemeModes);
      }
    case Failed(_) =>
  }

  /** After a successful read every present mode is registered under `<base>_<mode>`. */
  lemma LoadRegistersModes(c: Config, dir: Folder, e: Env, name: string, m: Mode)
    requires e.registry.Valid()
    requires ReadTheme(dir, Basename(name)).Read?
    requires ModeName(m) in ReadTheme(dir, Basename(name)).def
    ensures var r := Load(c, dir, e, name).env.registry;
      var key := ThemeKey(Basename(name), m);
      key in r.themes && r.themes[key] == Theme(key, ReadTheme(dir, Basename(name)).def[ModeName(m)])
  {
  }

  // ---------------------------------------------------------------------
  // load_themes
  // ---------------------------------------------------------------------

  /**
   * The loop of `load_themes` over the stems of the `.json` entries:
   * `load_theme("<folder>/<stem>")` for each, stopping at the first
   * error that escapes.
   */
  function LoadAll(c: Config, dir: Folder, e: Env, stems: seq<string>): (o: Outcome)
    ensures e.readPaths <= o.env.readPaths
    decreases |stems|
  {
    if stems == [] then Outcome(e, None)
    else
      var first := Load(c, dir, e, c.folder + "/" + stems[0]);
      if first.raised.Some? then first
      else LoadAll(c, dir, first.env, stems[1..])
  }

  /** The loop of `load_themes` over the raw directory listing: each `.json` entry is loaded by its stem. */
  function LoadListing(c: Config, dir: Folder, e: Env, listing: seq<string>): (o: Outcome)
    decreases |listing|
  {
    if listing == [] then Outcome(e, None)
    else if !IsJsonName(listing[0]) then LoadListing(c, dir, e, listing[1..])
    else
      var first := Load(c, dir, e, c.folder + "/" + Stem(listing[0]));
      if first.raised.Some? then first
      else LoadListing(c, dir, first.env, listing[1..])
  }

  /** Walking the listing is loading its `.json` stems in order. */
  lemma {:induction false} LoadListingIsLoadAll(c: Config, dir: Folder, e: Env, listing: seq<string>)
    ensures LoadListing(c, dir, e, listing) == LoadAll(c, dir, e, JsonStems(listing))
    decreases |listing|
  {
    if listing != [] {
      JsonStemsStep(listing, 0);
      assert listing[0..] == listing;
      var rest := JsonStems(listing[1..]);
      if IsJsonName(listing[0]) {
        var first := Load(c, dir, e, c.folder + "/" + Stem(listing[0]));
        assert ([Stem(listing[0])] + rest)[1..] == rest;
        if first.raised.None? {
          LoadListingIsLoadAll(c, dir, first.env, listing[1..]);
        }
      } else {
        LoadListingIsLoadAll(c, dir, e, listing[1..]);
      }
    }
  }

  /** The stems that `load_themes` attempts: all of them, or up to the first without modes. */
  function Attempted(dir: Folder, stems: seq<string>): seq<string>
  {
    if stems == [] then []
    else if ModeLess(dir, Basename(stems[0])) then [stems[0]]
    else [stems[0]] + Attempted(dir, stems[1..])
  }

  function AttemptReadsAll(c: Config, dir: Folder, stems: seq<string>): seq<string>
  {
    if stems == [] then [] else AttemptReads(c, dir, stems[0]) + AttemptReadsAll(c, dir, stems[1..])
  }

  lemma LoadAttemptsOf(c: Config, dir: Folder, stem: string)
    ensures AttemptReads(c, dir, c.folder + "/" + stem) == AttemptReads(c, dir, stem)
    ensures ModeLess(dir, Basename(c.folder + "/" + stem)) == ModeLess(dir, Basename(stem))
  {
    BasenameAfterSeparator(c.folder, stem);
  }

  /**
   * `load_themes` reads, in listing order, each entry's file (and the
   * fallback's after a failure), one entry after another, and stops
   * after the first entry without modes.
   */
  lemma {:induction false} LoadAllReads(c: Config, dir: Folder, e: Env, stems: seq<string>)
    ensures LoadAll(c, dir, e, stems).env.readPaths == e.readPaths + AttemptReadsAll(c, dir, Attempted(dir, stems))
    decreases |stems|
  {
    if stems != [] {
      var name := c.folder + "/" + stems[0];
      var first := Load(c, dir, e, name);
      LoadReads(c, dir, e, name);
      LoadRaises(c, dir, e, name);
      LoadAttemptsOf(c, dir, stems[0]);
      if first.raised.None? {
        LoadAllReads(c, dir, first.env, stems[1..]);
      }
    }
  }

  /** `load_themes` raises exactly when some entry's file reads but has neither mode. */
  lemma {:induction false} LoadAllRaises(c: Config, dir: Folder, e: Env, stems: seq<string>)
    ensures LoadAll(c, dir, e, stems).raised.Some?
        <==> exists i :: 0 <= i < |stems| && ModeLess(dir, Basename(stems[i]))
    decreases |stems|
  {
    if stems != [] {
      var name := c.folder + "/" + stems[0];
      var first := Load(c, dir, e, name);
      LoadRaises(c, dir, e, name);
      BasenameAfterSeparator(c.folder, stems[0]);
      if first.raised.None? {
        LoadAllRaises(c, dir, first.env, stems[1..]);
        forall i | 0 < i < |stems| ensures stems[i] == stems[1..][i - 1] { }
      }
    }
  }

  /** The position of the first stem whose file reads without modes, or `|stems|` if there is none. */
  function FirstModeLess(dir: Folder, stems: seq<string>): (k: nat)
    ensures k <= |stems|
    ensures k < |stems| ==> ModeLess(dir, Basename(stems[k]))
    ensures forall j :: 0 <= j < k ==> !ModeLess(dir, Basename(stems[j]))
    decreases |stems|
  {
    if stems == [] then 0
    else if ModeLess(dir, Basename(stems[0])) then 0
    else
      var k := FirstModeLess(dir, stems[1..]);
      assert forall j :: 0 < j <= k ==> stems[j] == stems[1..][j - 1];
      1 + k
  }

  /** When `load_themes` raises, it raises the `ThemeModeError` of the first entry without modes. */
  lemma {:induction false} LoadAllRaisesFirst(c: Config, dir: Folder, e: Env, stems: seq<string>)
    ensures var k := FirstModeLess(dir, stems);
      LoadAll(c, dir, e, stems).raised
        == if k < |stems| then Some(ThemeModeError(Basename(stems[k]))) else None
    decreases |stems|
  {
    if stems != [] {
      var name := c.folder + "/" + stems[0];
      var first := Load(c, dir, e, name);
      LoadRaises(c, dir, e, name);
      BasenameAfterSeparator(c.folder, stems[0]);
      if first.raised.None? {
        LoadAllRaisesFirst(c, dir, first.env, stems[1..]);
        var k := FirstModeLess(dir, stems[1..]);
        if k < |stems[1..]| {
          assert stems[1..][k] == stems[k + 1];
        }
      }
    }
  }

  /** `load_themes` never removes a theme nor moves an existing name. */
  lemma {:induction false} LoadAllKeepsRegistry(c: Config, dir: Folder, e: Env, stems: seq<string>)
    requires e.registry.Valid()
    ensures var r := LoadAll(c, dir, e, stems).env.registry;
      r.Valid() && e.registry.order <= r.order && e.registry.themes.Keys <= r.themes.Keys
    decreases |stems|
  {
    if stems != [] {
      var name := c.folder + "/" + stems[0];
      var first := Load(c, dir, e, name);
      LoadKeepsRegistry(c, dir, e, name);
      if first.raised.None? {
        LoadAllKeepsRegistry(c, dir, first.env, stems[1..]);
      }
    }
  }

  /**
   * When `load_themes` completes, every mode that a listed entry's file
   * provides is registered under `<stem>_<mode>`.
   */
  lemma {:induction false} LoadAllRegisters(c: Config, dir: Folder, e: Env, stems: seq<string>, i: nat, m: Mode)
    requires e.registry.Valid()
    requires i < |stems| && '/' !in stems[i]
    requires ReadTheme(dir, stems[i]).Read? && ModeName(m) in ReadTheme(dir, stems[i]).def
    requires LoadAll(c, dir, e, stems).raised.None?
    ensures ThemeKey(stems[i], m) in LoadAll(c, dir, e, stems).env.registry.themes
    decreases |stems|
  {
    var name := c.folder + "/" + stems[0];
    var first := Load(c, dir, e, name);
    LoadKeepsRegistry(c, dir, e, name);
    LoadAllKeepsRegistry(c, dir, first.env, stems[1..]);
    if i == 0 {
      BasenameAfterSeparator(c.folder, stems[0]);
      BasenameOfPlain(stems[0]);
      LoadRegistersModes(c, dir, e, name, m);
    } else {
      LoadAllRegisters(c, dir, first.env, stems[1..], i - 1, m);
    }
  }
}
