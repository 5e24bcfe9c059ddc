/**
 * The theme provider (src/providers/theme.tsx): the colour mode ("light", "dark" or "system"),
 * the team whose colours the site wears, the operating system's preference, the mapping from
 * team and applied mode to the CSS colours, and the synchronisation of that state with the
 * document root, the theme-color meta tag and localStorage.
 *
 * The mode and the team read back from localStorage are cast, not checked, so they are plain
 * strings here: any stored string becomes the mode. `teamThemes` is an object literal, so a
 * team that is not configured but names a member of `Object.prototype` reads that member and
 * gets `undefined` colours, while any other unknown team makes the synchronising effect throw.
 */
module Theme {
  import opened Wrappers
  import opened JsObject

  // ---------------------------------------------------------------------------------------
  // Team colours

  /** The optional colours a team uses in dark mode instead of its light ones. */
  datatype DarkOverrides = DarkOverrides(link: Option<string>, accent: Option<string>)

  datatype TeamTheme = TeamTheme(
    accent: string,
    link: string,
    bubble: string,
    teamName: string,
    dark: Option<DarkOverrides>)

  const DefaultTheme := TeamTheme("#cccccc", "#1e73e8", "#cccccc", "", Some(DarkOverrides(Some("#3a8dff"), None)))
  const Yamaha := TeamTheme("#95D600", "#0D47F7", "#0b39a0", "Star Racing Yamaha", Some(DarkOverrides(Some("#4185F4"), None)))
  const Honda := TeamTheme("#0033A0", "#CC0000", "#CC0000", "Honda HRC Progressive", None)
  const Kawasaki := TeamTheme("#95D600", "#6B9900", "#95D600", "Monster Energy Kawasaki", Some(DarkOverrides(Some("#95D600"), None)))
  const Ktm := TeamTheme("#FF6600", "#FF6600", "#FF6600", "Red Bull KTM", None)
  const GasGas := TeamTheme("#CF9C43", "#CB0D25", "#CB0D25", "Rockstar Energy GasGas", Some(DarkOverrides(Some("#CB0D25"), Some("#CF9C43"))))
  const Husqvarna := TeamTheme("#FFED00", "#273A60", "#273A60", "Rockstar Energy Husqvarna", Some(DarkOverrides(Some("#FFED00"), Some("#273A60"))))
  const Triumph := TeamTheme("#D4D700", "#000000", "#F0FF00", "Triumph Factory Racing", Some(DarkOverrides(Some("#F0FF00"), None)))

  /** `teamThemes`: the eight teams a reader can wear, by key. */
  const TeamThemes: map<string, TeamTheme> := map[
    "default" := DefaultTheme,
    "yamaha" := Yamaha,
    "honda" := Honda,
    "kawasaki" := Kawasaki,
    "ktm" := Ktm,
    "gasgas" := GasGas,
    "husqvarna" := Husqvarna,
    "triumph" := Triumph
  ]

  predicate IsHexDigit(c: char) {
    '0' <= c <= '9' || 'a' <= c <= 'f' || 'A' <= c <= 'F'
  }

  /** A CSS colour of the form `#rrggbb`. */
  predicate IsHexColor(s: string) {
    |s| == 7 && s[0] == '#' && forall i :: 1 <= i < 7 ==> IsHexDigit(s[i])
  }

  // ---------------------------------------------------------------------------------------
  // Modes

  /** A mode the provider's type admits. */
  predicate IsMode(theme: string) {
    theme == "light" || theme == "dark" || theme == "system"
  }

  /** What `matchMedia("(prefers-color-scheme: dark)")` reports, as the provider stores it. */
  predicate IsScheme(s: string) {
    s == "light" || s == "dark"
  }

  /**
   * The mode in effect: the system's preference when the mode is "system". For the modes the
   * provider's type admits it is always a scheme, and an explicit scheme is kept as it is.
   */
  function AppliedTheme(theme: string, systemTheme: string): (r: string)
    ensures IsMode(theme) && IsScheme(systemTheme) ==> IsScheme(r)
    ensures IsScheme(theme) ==> r == theme
    ensures theme == "system" ==> r == systemTheme
    ensures !IsMode(theme) ==> r == theme
  {
    if theme == "system" then systemTheme else theme
  }

  /**
   * `toggleTheme`: from "system" to the opposite of the system's preference, from "light" to
   * "dark", and from anything else to "light". The result is always an explicit mode, and it
   * differs from the mode that was in effect.
   */
  function Toggled(prev: string, systemTheme: string): (r: string)
    ensures IsScheme(r)
    ensures IsScheme(systemTheme) ==> r != AppliedTheme(prev, systemTheme)
  {
    if prev == "system" then
      if systemTheme == "light" then "dark" else "light"
    else if prev == "light" then "dark"
    else "light"
  }

  /** For every mode the type admits, toggling switches the page between light and dark. */
  lemma ToggleFlipsAppearance(prev: string, systemTheme: string)
    requires IsMode(prev) && IsScheme(systemTheme)
    ensures (AppliedTheme(Toggled(prev, systemTheme), systemTheme) == "dark")
        != (AppliedTheme(prev, systemTheme) == "dark")
  {
  }

  /**
   * Toggling twice restores an explicit mode, but leaves "system" for good: the page ends up
   * in the system's current scheme as an explicit mode.
   */
  lemma ToggleTwice(prev: string, systemTheme: string)
    requires IsMode(prev) && IsScheme(systemTheme)
    ensures prev != "system" ==> Toggled(Toggled(prev, systemTheme), systemTheme) == prev
    ensures prev == "system" ==> Toggled(Toggled(prev, systemTheme), systemTheme) == systemTheme
  {
  }

  /**
   * A stored mode outside the three the type admits is applied as it is, which does not
   * select the dark colours, and toggling it gives "light": the click changes nothing visible.
   */
  lemma ToggleFromUnknownMode(prev: string, systemTheme: string)
    requires !IsMode(prev)
    ensures AppliedTheme(prev, systemTheme) != "dark"
    ensures Toggled(prev, systemTheme) == "light"
  {
  }

  // ---------------------------------------------------------------------------------------
  // Colours

  /** The three colours written to the root element's CSS variables. */
  datatype Palette = Palette(link: string, accent: string, background: string)

  /**
   * `teamThemes[team]` is an object: a configured team, or a member every object literal
   * inherits from `Object.prototype`.
   */
  predicate Resolves(team: string) {
    team in TeamThemes || team in ObjectPrototype
  }

  /**
   * The colours of a team in an applied mode. Only the mode "dark" uses a team's dark
   * overrides, and only those that are non-empty; every other mode uses the light colours.
   * An inherited member has no `link`, `accent` or `dark`: both colours are `undefined`, which
   * `setProperty` writes as the string "undefined". Any other unknown team yields `undefined`,
   * and reading a colour of it throws: `None`.
   */
  function ThemeColors(team: string, applied: string): (r: Option<Palette>)
    ensures r.Some? <==> Resolves(team)
    ensures r.Some? ==> (r.value.background == "#1f1f1f" <==> applied == "dark")
    ensures r.Some? ==> (r.value.background == "#1f1f1f" || r.value.background == "#ffffff")
    ensures team in TeamThemes && applied != "dark" ==>
      r.value.link == TeamThemes[team].link && r.value.accent == TeamThemes[team].accent
    ensures team !in TeamThemes && r.Some? ==> r.value.link == "undefined" && r.value.accent == "undefined"
  {
    var dark := applied == "dark";
    var background := if dark then "#1f1f1f" else "#ffffff";
    if team in TeamThemes then
      var colors := TeamThemes[team];
      var link := if dark && colors.dark.Some? && Truthy(colors.dark.value.link) then colors.dark.value.link.value else colors.link;
      var accent := if dark && colors.dark.Some? && Truthy(colors.dark.value.accent) then colors.dark.value.accent.value else colors.accent;
      Some(Palette(link, accent, background))
    else if team in ObjectPrototype then Some(Palette("undefined", "undefined", background))
    else None
  }

  /** Every colour a team configures, light or dark, is a `#rrggbb` colour. */
  predicate HexTheme(t: TeamTheme) {
    && IsHexColor(t.link) && IsHexColor(t.accent) && IsHexColor(t.bubble)
    && (t.dark.Some? ==>
      && (t.dark.value.link.Some? ==> IsHexColor(t.dark.value.link.value))
      && (t.dark.value.accent.Some? ==> IsHexColor(t.dark.value.accent.value)))
  }

  lemma HexDefaultYamaha()
    ensures HexTheme(DefaultTheme) && HexTheme(Yamaha)
  {
  }

  lemma HexHondaKawasaki()
    ensures HexTheme(Honda) && HexTheme(Kawasaki)
  {
  }

  lemma HexKtmGasGas()
    ensures HexTheme(Ktm) && HexTheme(GasGas)
  {
  }

  lemma HexHusqvarnaTriumph()
    ensures HexTheme(Husqvarna) && HexTheme(Triumph)
  {
  }

  lemma TeamThemesHex(team: string)
    requires team in TeamThemes
    ensures HexTheme(TeamThemes[team])
  {
    HexDefaultYamaha();
    HexHondaKawasaki();
    HexKtmGasGas();
    HexHusqvarnaTriumph();
  }

  /** Every team's colours, in either scheme, are `#rrggbb` colours. */
  lemma AllColorsAreHex(team: string, applied: string)
    requires team in TeamThemes
    ensures var p := ThemeColors(team, applied).value;
      IsHexColor(p.link) && IsHexColor(p.accent) && IsHexColor(p.background)
  {
    TeamThemesHex(team);
  }

  /** In dark mode a team's link colour is its dark override when it has one. */
  lemma DarkLinkOverride(team: string)
    requires team in TeamThemes && TeamThemes[team].dark.Some? && Truthy(TeamThemes[team].dark.value.link)
    ensures ThemeColors(team, "dark").value.link == TeamThemes[team].dark.value.link.value
  {
  }

  /** In dark mode a team's accent colour is its dark override when it has one. */
  lemma DarkAccentOverride(team: string)
    requires team in TeamThemes && TeamThemes[team].dark.Some? && Truthy(TeamThemes[team].dark.value.accent)
    ensures ThemeColors(team, "dark").value.accent == TeamThemes[team].dark.value.accent.value
  {
  }

  /**
   * In dark mode a colour without a non-empty override, because the team has no `dark` object
   * or that object lacks the colour or holds "", is the team's light colour.
   */
  lemma DarkFallsBackToLight(team: string)
    requires team in TeamThemes
    ensures var t := TeamThemes[team];
      && (!(t.dark.Some? && Truthy(t.dark.value.link)) ==> ThemeColors(team, "dark").value.link == t.link)
      && (!(t.dark.Some? && Truthy(t.dark.value.accent)) ==> ThemeColors(team, "dark").value.accent == t.accent)
  {
  }

  /** Husqvarna swaps its colours in dark mode; Kawasaki keeps its accent. */
  lemma DarkColorsOfTwoTeams()
    ensures ThemeColors("husqvarna", "dark") == Some(Palette("#FFED00", "#273A60", "#1f1f1f"))
    ensures ThemeColors("kawasaki", "dark") == Some(Palette("#95D600", "#95D600", "#1f1f1f"))
  {
    DarkLinkOverride("husqvarna");
    DarkAccentOverride("husqvarna");
    DarkLinkOverride("kawasaki");
    DarkFallsBackToLight("kawasaki");
  }

  /** A stored team naming an inherited member gets "undefined" colours, and nothing throws. */
  lemma InheritedTeamColors(applied: string)
    ensures ThemeColors("constructor", applied).Some?
    ensures ThemeColors("constructor", applied).value.link == "undefined"
    ensures ThemeColors("__proto__", applied).value.accent == "undefined"
  {
    assert "constructor" !in TeamThemes && "__proto__" !in TeamThemes;
  }

  /** A team without dark overrides shows the same link and accent colours in both schemes. */
  lemma NoOverridesSameColors(team: string)
    requires team in TeamThemes && TeamThemes[team].dark.None?
    ensures ThemeColors(team, "dark").value.link == ThemeColors(team, "light").value.link
    ensures ThemeColors(team, "dark").value.accent == ThemeColors(team, "light").value.accent
    ensures ThemeColors(team, "dark").value.background != ThemeColors(team, "light").value.background
  {
  }

  // ---------------------------------------------------------------------------------------
  // Persistence

  /** `localStorage.getItem(key)`: `null` for a missing key. */
  function GetItem(storage: map<string, string>, key: string): Option<string> {
    if key in storage then Some(storage[key]) else None
  }

  /**
   * `localStorage.getItem(key) || fallback`: the stored value, unless it is missing or empty.
   * The mode is loaded with fallback "system", the team with "default".
   */
  function StoredOr(storage: map<string, string>, key: string, fallback: string): (r: string)
    requires fallback != ""
    ensures r != ""
    ensures r == fallback || (key in storage && r == storage[key])
    ensures key in storage && storage[key] != "" ==> r == storage[key]
  {
    var saved := GetItem(storage, key);
    if Truthy(saved) then saved.value else fallback
  }

  function LoadedTheme(storage: map<string, string>): string {
    StoredOr(storage, "theme", "system")
  }

  function LoadedTeam(storage: map<string, string>): string {
    StoredOr(storage, "team", "default")
  }

  /** What the effect writes to localStorage is what the next load reads back. */
  lemma PersistRoundTrip(storage: map<string, string>, theme: string, team: string)
    requires theme != "" && team != ""
    ensures LoadedTheme(storage["theme" := theme]["team" := team]) == theme
    ensures LoadedTeam(storage["theme" := theme]["team" := team]) == team
  {
  }

  /**
   * Every team that resolves, configured or inherited, has a non-empty key, so a persisted team
   * is never replaced by the fallback on load.
   */
  lemma TeamKeysNonEmpty(team: string)
    requires Resolves(team)
    ensures team != ""
  {
  }

  // ---------------------------------------------------------------------------------------
  // The provider's state and the effects that keep the page in step with it

  class ThemeProvider {
    var theme: string
    var team: string
    var systemTheme: string
    var isHydrated: bool
    /** The synchronising effect threw (a team that does not resolve); the tree is gone. */
    var crashed: bool
    /** localStorage. */
    var storage: map<string, string>
    /** The root element's `data-theme` attribute. */
    var dataTheme: Option<string>
    /** The root element's CSS custom properties. */
    var style: map<string, string>
    /** The content of `<meta name="theme-color">`, "#ffffff" as the layout renders it. */
    var metaContent: string

    /** The page shows the state: attribute, colours, meta tag and storage all agree with it. */
    predicate Synced()
      reads this
    {
      var applied := AppliedTheme(theme, systemTheme);
      && Resolves(team)
      && dataTheme == Some(applied)
      && var p := ThemeColors(team, applied).value;
      && "--link" in style && style["--link"] == p.link
      && "--accent" in style && style["--accent"] == p.accent
      && "--background" in style && style["--background"] == p.background
      && metaContent == p.background
      && GetItem(storage, "theme") == Some(theme)
      && GetItem(storage, "team") == Some(team)
    }

    /** What holds even between a state change and the effect that follows it. */
    predicate Consistent()
      reads this
    {
      IsScheme(systemTheme) && theme != ""
    }

    predicate Valid()
      reads this
    {
      Consistent() && (isHydrated && !crashed ==> Synced())
    }

    /**
     * The page after the synchronising effect ran on a page whose attribute, CSS variables,
     * meta tag and storage were `dataTheme0`, `style0`, `meta0` and `storage0`. Before hydration
     * nothing changes. Once hydrated the attribute shows the applied mode; a team that does not
     * resolve throws on reading its colours and leaves the rest; otherwise exactly the three
     * variables, the meta tag and the two storage keys are written, every other entry staying.
     */
    predicate AfterEffect(dataTheme0: Option<string>, style0: map<string, string>, meta0: string, storage0: map<string, string>)
      reads this
    {
      if !isHydrated then
        !crashed && dataTheme == dataTheme0 && style == style0 && metaContent == meta0 && storage == storage0
      else
        var applied := AppliedTheme(theme, systemTheme);
        && dataTheme == Some(applied)
        && (crashed <==> !Resolves(team))
        && (crashed ==> style == style0 && metaContent == meta0 && storage == storage0)
        && (!crashed ==>
              var p := ThemeColors(team, applied).value;
              && style == style0["--link" := p.link]["--accent" := p.accent]["--background" := p.background]
              && metaContent == p.background
              && storage == storage0["theme" := theme]["team" := team])
    }

    /** The initial state: "system" mode, the default team, a light system, not yet loaded. */
    constructor (saved: map<string, string>)
      ensures theme == "system" && team == "default" && systemTheme == "light"
      ensures !isHydrated && !crashed
      ensures storage == saved && dataTheme == None && style == map[] && metaContent == "#ffffff"
      ensures Valid()
    {
      theme := "system";
      team := "default";
      systemTheme := "light";
      isHydrated := false;
      crashed := false;
      storage := saved;
      dataTheme := None;
      style := map[];
      metaContent := "#ffffff";
    }

    /**
     * The effect that runs whenever the mode, the system preference, the team or the
     * hydration flag changes: nothing before hydration; then the `data-theme` attribute, and,
     * for a team that resolves, the three CSS variables, the meta tag and both storage keys.
     */
    method ApplyTheme()
      requires Consistent() && !crashed
      modifies this
      ensures theme == old(theme) && team == old(team) && systemTheme == old(systemTheme)
      ensures isHydrated == old(isHydrated)
      ensures AfterEffect(old(dataTheme), old(style), old(metaContent), old(storage))
      ensures Valid()
    {
      if !isHydrated {
        return;
      }
      var applied := AppliedTheme(theme, systemTheme);
      dataTheme := Some(applied);
      var colors := ThemeColors(team, applied);
      if colors.None? {
        crashed := true;
        return;
      }
      var p := colors.value;
      style := style["--link" := p.link]["--accent" := p.accent]["--background" := p.background];
      metaContent := p.background;
      storage := storage["theme" := theme]["team" := team];
    }

    /**
     * The media-query listener: records the system preference, then the effect runs. The team
     * was already applied, so nothing throws.
     */
    method UpdateSystemTheme(prefersDark: bool)
      requires Valid() && !crashed
      modifies this
      ensures systemTheme == (if prefersDark then "dark" else "light")
      ensures theme == old(theme) && team == old(team) && isHydrated == old(isHydrated)
      ensures !crashed && Valid()
      ensures AfterEffect(old(dataTheme), old(style), old(metaContent), old(storage))
    {
      systemTheme := if prefersDark then "dark" else "light";
      ApplyTheme();
    }

    /**
     * The loading effect, once at mount: the stored mode and team (or their fallbacks) become
     * the state, the provider is hydrated, and the synchronising effect runs.
     */
    method LoadPreferences()
      requires Valid() && !crashed && !isHydrated
      modifies this
      ensures theme == LoadedTheme(old(storage)) && team == LoadedTeam(old(storage))
      ensures systemTheme == old(systemTheme) && isHydrated
      ensures crashed <==> !Resolves(team)
      ensures AfterEffect(old(dataTheme), old(style), old(metaContent), old(storage))
      ensures Valid()
    {
      theme := LoadedTheme(storage);
      team := LoadedTeam(storage);
      isHydrated := true;
      ApplyTheme();
    }

    /** `toggleTheme`, available once hydrated: the page switches between light and dark. */
    method ToggleTheme()
      requires Valid() && isHydrated && !crashed
      modifies this
      ensures theme == Toggled(old(theme), systemTheme)
      ensures team == old(team) && systemTheme == old(systemTheme) && isHydrated
      ensures AppliedTheme(theme, systemTheme) != old(AppliedTheme(theme, systemTheme))
      ensures !crashed && Valid()
      ensures AfterEffect(old(dataTheme), old(style), old(metaContent), old(storage))
      ensures LoadedTheme(storage) == theme && LoadedTeam(storage) == team
    {
      theme := Toggled(theme, systemTheme);
      ApplyTheme();
      TeamKeysNonEmpty(team);
      PersistRoundTrip(old(storage), theme, team);
    }

    /**
     * `setTeam`, available once hydrated. A team that neither is configured nor names an
     * inherited member makes the effect throw; an inherited one is applied with "undefined"
     * colours and persisted.
     */
    method SetTeam(t: string)
      requires Valid() && isHydrated && !crashed
      modifies this
      ensures team == t && theme == old(theme) && systemTheme == old(systemTheme) && isHydrated
      ensures crashed <==> !Resolves(t)
      ensures AfterEffect(old(dataTheme), old(style), old(metaContent), old(storage))
      ensures !crashed ==> LoadedTheme(storage) == theme && LoadedTeam(storage) == team
      ensures Valid()
    {
      team := t;
      ApplyTheme();
      if !crashed {
        TeamKeysNonEmpty(team);
        PersistRoundTrip(old(storage), theme, team);
      }
    }
  }
}
