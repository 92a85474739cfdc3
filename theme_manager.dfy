/**
 * The host application (only its theme registry and active theme) and
 * the `ThemeManager` object that loads theme files into it.
 */
module ThemeManagement {
  import opened Wrappers
  import opened ThemeModel
  import opened ThemeLoading

  /** The host runtime: `available_themes` and the settable active `theme`. */
  class App {
    var registry: Registry
    var theme: string

    constructor (registry: Registry, theme: string)
      ensures this.registry == registry && this.theme == theme
    {
      this.registry := registry;
      this.theme := theme;
    }

    /** `register_theme(t)`. */
    method RegisterTheme(t: Theme)
      modifies this
      ensures registry == Register(old(registry), t)
      ensures theme == old(theme)
    {
      registry := Register(registry, t);
    }
  }

  class ThemeManager {
    /** `theme_folder`: `<data_dir>/themes`. */
    const themeFolder: string
    /** `settings.theme_fallback_name`. */
    const fallbackName: string
    /** What the reader makes of the bundled `par.json`. */
    const defaultAsset: ReadResult

    var app: App?
    /** The theme folder on disk. */
    var folder: Folder
    /** Every path handed to the secure reader, in order. */
    var readPaths: seq<string>
    /** Every `log_it` call, in order. */
    var log: seq<LogEvent>

    ghost predicate Valid()
      reads this, app
    {
      folder.Valid() && (app != null ==> app.registry.Valid())
    }

    function Config(): Config
    {
      ThemeLoading.Config(themeFolder, fallbackName)
    }

    function Env(): Env
      reads this, app
      requires app != null
    {
      ThemeLoading.Env(app.registry, readPaths, log)
    }

    /** A manager that has not been given an application yet. */
    constructor (themeFolder: string, fallbackName: string, defaultAsset: ReadResult, folder: Folder)
      requires folder.Valid()
      ensures Valid()
      ensures this.themeFolder == themeFolder && this.fallbackName == fallbackName
      ensures this.defaultAsset == defaultAsset && this.folder == folder
      ensures app == null && readPaths == [] && log == []
    {
      this.themeFolder := themeFolder;
      this.fallbackName := fallbackName;
      this.defaultAsset := defaultAsset;
      this.folder := folder;
      app := null;
      readPaths := [];
      log := [];
    }

    /** `set_app`: attach the application, then load every theme in the folder. */
    method SetApp(a: App?) returns (raised: Option<Raised>)
      requires Valid() && (a != null ==> a.registry.Valid())
      modifies this, a
      ensures Valid() && app == a
      ensures folder == Seed(old(folder), defaultAsset)
      ensures a == null ==> raised == Some(AppNotInitialized) && readPaths == old(readPaths) && log == old(log)
      ensures a != null ==>
        var o := LoadListing(Config(), folder, ThemeLoading.Env(old(a.registry), old(readPaths), old(log)), folder.listing);
        Env() == o.env && raised == Lift(o.raised) && a.theme == old(a.theme)
    {
      app := a;
      raised := LoadThemes();
    }

    /** `ensure_default_theme`. */
    method EnsureDefaultTheme()
      requires folder.Valid()
      modifies this`folder
      ensures folder == Seed(old(folder), defaultAsset)
    {
      if !folder.present {
        folder := folder.(present := true);
      }
      if DefaultThemeFile !in folder.files {
        folder := Folder(folder.present, folder.listing + [DefaultThemeFile], folder.files[DefaultThemeFile := defaultAsset]);
      }
    }

    /** `load_theme(name)`; an exception that escapes it is returned in `raised`. */
    method LoadTheme(name: string) returns (raised: Option<Raised>)
      modifies this, app
      ensures app == old(app) && folder == old(folder)
      ensures old(app) == null ==>
        raised == Some(AppNotInitialized) && readPaths == old(readPaths) && log == old(log)
      ensures old(app) != null ==>
        var o := Load(Config(), folder, old(Env()), name);
        Env() == o.env && raised == Lift(o.raised) && app.theme == old(app.theme)
      decreases if Retries(Basename(name), fallbackName) then 1 else 0
    {
      if app == null {
        return Some(AppNotInitialized);
      }
      raised := None;
      var base := Basename(name);
      var path := ThemePath(themeFolder, base);
      readPaths := readPaths + [path];
      match ReadTheme(folder, base)
      case Read(def) =>
        if !HasMode(def) {
          return Some(Invalid(ThemeModeError(base)));
        }
        RegisterDefinition(base, def);
      case Failed(err) =>
        log := log + [LoadFailed(base, err)];
        if Retries(base, fallbackName) {
          ghost var e1 := Env();
          var fallbackRaised := LoadTheme(fallbackName);
          ghost var o1 := Load(Config(), folder, e1, fallbackName);
          assert Env() == o1.env;
          if fallbackRaised.Some? {
            log := log + [FallbackFailed(fallbackName)];
          }
        }
    }

    /** The registration loop of `load_theme`: each present mode, dark then light. */
    method RegisterDefinition(base: string, def: Definition)
      requires app != null
      modifies app
      ensures app.registry == RegisterModes(old(app.registry), base, def, ThemeModes)
      ensures app.theme == old(app.theme)
    {
      var i := 0;
      while i < |ThemeModes|
        invariant 0 <= i <= |ThemeModes|
        invariant app.registry == RegisterModes(old(app.registry), base, def, ThemeModes[..i])
        invariant app.theme == old(app.theme)
      {
        var mode := ThemeModes[i];
        assert ThemeModes[..i + 1][..i] == ThemeModes[..i];
        if ModeName(mode) in def {
          app.RegisterTheme(Theme(ThemeKey(base, mode), def[ModeName(mode)]));
        }
        i := i + 1;
      }
      assert ThemeModes[..i] == ThemeModes;
    }

    /**
     * `load_themes`: seed the folder, then load each `.json` entry in
     * listing order. Without an application the first `load_theme` call
     * raises, and the seeded folder always lists `par.json`, so that case
     * ends before anything is read.
     */
    method LoadThemes() returns (raised: Option<Raised>)
      requires Valid()
      modifies this, app
      ensures Valid() && app == old(app)
      ensures folder == Seed(old(folder), defaultAsset)
      ensures old(app) == null ==>
        raised == Some(AppNotInitialized) && readPaths == old(readPaths) && log == old(log)
      ensures old(app) != null ==>
        var o := LoadListing(Config(), folder, old(Env()), folder.listing);
        Env() == o.env && raised == Lift(o.raised) && app.theme == old(app.theme)
    {
      EnsureDefaultTheme();
      if app == null {
        return Some(AppNotInitialized);
      }
      ghost var e0 := old(Env());
      raised := LoadListed(folder.listing);
      LoadListingIsLoadAll(Config(), folder, e0, folder.listing);
      LoadAllKeepsRegistry(Config(), folder, e0, JsonStems(folder.listing));
    }

    /** The loop of `load_themes` over the directory listing, with an application attached. */
    method LoadListed(listing: seq<string>) returns (raised: Option<Raised>)
      requires app != null
      modifies this, app
      ensures app == old(app) && folder == old(folder)
      ensures var o := LoadListing(Config(), folder, old(Env()), listing);
        Env() == o.env && raised == Lift(o.raised) && app.theme == old(app.theme)
    {
      raised := None;
      ghost var goal := LoadListing(Config(), folder, Env(), listing);
      assert listing[0..] == listing;
      var i := 0;
      while i < |listing|
        invariant 0 <= i <= |listing|
        invariant app == old(app) && folder == old(folder) && app.theme == old(app.theme)
        invariant raised == None && goal == LoadListing(Config(), folder, Env(), listing[i..])
      {
        var file := listing[i];
        assert listing[i..][1..] == listing[i + 1..];
        if IsJsonName(file) {
          raised := LoadTheme(themeFolder + "/" + Stem(file));
          if raised.Some? {
            return;
          }
        }
        i := i + 1;
      }
    }

    /** `get_theme(name)`. */
    method GetTheme(name: string) returns (r: Result<Theme, Raised>)
      requires Valid()
      ensures app == null ==> r == Failure(AppNotInitialized)
      ensures app != null ==> r == Lookup(app.registry, name)
      ensures r.Success? ==> app != null && name in app.registry.order && r.value.name == name
    {
      if app == null {
        return Failure(AppNotInitialized);
      }
      r := Lookup(app.registry, name);
    }

    /** `list_themes()`: the registered names in registration order. */
    method ListThemes() returns (r: Result<seq<string>, Raised>)
      requires Valid()
      ensures r.Failure? <==> app == null
      ensures r.Failure? ==> r.error == AppNotInitialized
      ensures r.Success? ==> r.value == app.registry.order
      ensures r.Success? ==> forall k :: k in r.value <==> k in app.registry.themes
    {
      if app == null {
        return Failure(AppNotInitialized);
      }
      r := Success(app.registry.order);
    }

    /** `theme_select_options()`: one `(name, name)` pair per listed theme, in order. */
    method ThemeSelectOptions() returns (r: Result<seq<(string, string)>, Raised>)
      requires Valid()
      ensures r.Failure? <==> app == null
      ensures r.Failure? ==> r.error == AppNotInitialized
      ensures r.Success? ==> Labels(r.value) == app.registry.order
      ensures r.Success? ==> forall i :: 0 <= i < |r.value| ==> r.value[i].0 == r.value[i].1
    {
      var keys := ListThemes();
      match keys
      case Failure(e) =>
        return Failure(e);
      case Success(ks) =>
        SelectOptionsLabels(ks);
        return Success(SelectOptions(ks));
    }

    /** `change_theme(name)`: set the active theme; the runtime validates the name. */
    method ChangeTheme(name: string) returns (raised: Option<Raised>)
      modifies app
      ensures app == null ==> raised == Some(AppNotInitialized)
      ensures app != null ==> raised == None && app.theme == name && app.registry == old(app.registry)
    {
      if app == null {
        return Some(AppNotInitialized);
      }
      app.theme := name;
      return None;
    }
  }
}
