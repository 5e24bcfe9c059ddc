/**
 * The sidebar (src/app/sidebar.tsx): the navigation links, the theme toggle's label and the
 * "Connect" links with the colour each icon is drawn in.
 *
 * The source picks the X icon's colour and the toggle's label from the mode ("light", "dark"
 * or "system") rather than from the scheme the page is actually shown in. `MemoizedConnectLinks`,
 * `ToggleLabel` and `SidebarView` model that as written; `ShownConnectLinks`, `ToggleLabelFor`
 * and `CorrectedSidebarView` the corrected rule.
 */
module Sidebar {
  import opened Wrappers
  import opened Theme

  datatype NavLink = NavLink(href: string, text: string)

  /** `navigationLinks`. */
  const NavigationLinks: seq<NavLink> := [
    NavLink("/", "Home"),
    NavLink("/archive", "Archive"),
    NavLink("/topics", "Topics"),
    NavLink("/about", "About")
  ]

  datatype Icon = XTwitter | Rss | Envelope | YouTube | Instagram

  /** A connect link: either a colour for each scheme, or one colour for both. */
  datatype ConnectLink = ConnectLink(
    href: string,
    text: string,
    icon: Icon,
    lightColor: Option<string>,
    darkColor: Option<string>,
    defaultColor: Option<string>)

  /** `connectLinks`. */
  const ConnectLinks: seq<ConnectLink> := [
    ConnectLink("https://x.com/aarondurant80", "X", XTwitter, Some("#000000"), Some("#FFFFFF"), None),
    ConnectLink("https://aarondurant.com/", "RSS", Rss, None, None, Some("#FF6600")),
    ConnectLink("mailto:moto@aarondurant.com", "Email", Envelope, None, None, Some("#D44638")),
    ConnectLink("https://www.youtube.com/@aarondurant80", "YouTube", YouTube, None, None, Some("#FF0000")),
    ConnectLink("https://www.instagram.com/aarondurant80/", "Instagram", Instagram, None, None, Some("#C13584"))
  ]

  /** A rendered connect link: the icon's colour is `undefined` when nothing supplies one. */
  datatype ShownLink = ShownLink(href: string, text: string, icon: Icon, color: Option<string>)

  /** The navigation and connect links have distinct hrefs, which the list items use as keys. */
  lemma HrefsAreKeys()
    ensures forall i, j :: 0 <= i < j < |NavigationLinks| ==> NavigationLinks[i].href != NavigationLinks[j].href
    ensures forall i, j :: 0 <= i < j < |ConnectLinks| ==> ConnectLinks[i].href != ConnectLinks[j].href
  {
  }

  // ---------------------------------------------------------------------------------------
  // As written: keyed on the mode

  /**
   * `defaultColor || (theme === "light" ? lightColor : darkColor)`: a link's own colour wins;
   * otherwise every mode but "light" is drawn as if the page were dark.
   */
  function LinkColor(link: ConnectLink, theme: string): (r: Option<string>)
    ensures Truthy(link.defaultColor) ==> r == link.defaultColor
    ensures r == LinkColorOnPage(link, theme != "light")
  {
    if Truthy(link.defaultColor) then link.defaultColor
    else if theme == "light" then link.lightColor
    else link.darkColor
  }

  /** `memoizedConnectLinks`: every connect link, in order, with its colour for the mode. */
  function MemoizedConnectLinks(theme: string): (r: seq<ShownLink>)
    ensures |r| == |ConnectLinks|
    ensures forall i :: 0 <= i < |r| ==>
      && r[i].href == ConnectLinks[i].href && r[i].text == ConnectLinks[i].text
      && r[i].icon == ConnectLinks[i].icon && r[i].color == LinkColor(ConnectLinks[i], theme)
  {
    seq(|ConnectLinks|, i requires 0 <= i < |ConnectLinks| => var l := ConnectLinks[i];
      ShownLink(l.href, l.text, l.icon, LinkColor(l, theme)))
  }

  /**
   * Only the X icon depends on the mode: it is black in "light" and white in every other
   * mode; the other icons keep their brand colour.
   */
  lemma OnlyXDependsOnMode(theme: string)
    ensures MemoizedConnectLinks(theme)[0].color == if theme == "light" then Some("#000000") else Some("#FFFFFF")
    ensures forall i :: 1 <= i < |ConnectLinks| ==>
      MemoizedConnectLinks(theme)[i].color == ConnectLinks[i].defaultColor
  {
  }

  /** The toggle's label: "Dark mode" in mode "light", "Light mode" in every other mode. */
  function ToggleLabel(theme: string): (r: string)
    ensures r == "Dark mode" <==> theme == "light"
  {
    if theme == "light" then "Dark mode" else "Light mode"
  }

  // ---------------------------------------------------------------------------------------
  // Comparing colours: CSS hex colours are case-insensitive

  function LowerChar(c: char): char {
    if 'A' <= c <= 'Z' then (c as int + 32) as char else c
  }

  function Lower(s: string): (r: string)
    ensures |r| == |s|
  {
    seq(|s|, i requires 0 <= i < |s| => LowerChar(s[i]))
  }

  /** Two colour strings name the same colour. */
  predicate SameColor(a: string, b: string) {
    Lower(a) == Lower(b)
  }

  /**
   * As written, in mode "system" on a light system the page is white and the X icon is drawn
   * white too, whatever the team.
   */
  lemma XIconInvisibleInSystemLight(team: string)
    requires Resolves(team)
    ensures var page := ThemeColors(team, AppliedTheme("system", "light")).value;
      && MemoizedConnectLinks("system")[0].color == Some("#FFFFFF")
      && SameColor(MemoizedConnectLinks("system")[0].color.value, page.background)
  {
    assert Lower("#FFFFFF") == "#ffffff";
  }

  /**
   * As written, in mode "system" on a light system the toggle offers "Light mode" on a light
   * page, and clicking it makes the page dark.
   */
  lemma ToggleLabelMisleadsInSystemLight()
    ensures AppliedTheme("system", "light") == "light"
    ensures ToggleLabel("system") == "Light mode"
    ensures AppliedTheme(Toggled("system", "light"), "light") == "dark"
  {
  }

  // ---------------------------------------------------------------------------------------
  // Corrected: keyed on the scheme the page is shown in

  /** The page is dark exactly when the applied mode is "dark", as the provider's colours are. */
  predicate PageIsDark(theme: string, systemTheme: string) {
    AppliedTheme(theme, systemTheme) == "dark"
  }

  /** `defaultColor || (pageIsDark ? darkColor : lightColor)`. */
  function LinkColorOnPage(link: ConnectLink, dark: bool): Option<string> {
    if Truthy(link.defaultColor) then link.defaultColor
    else if dark then link.darkColor
    else link.lightColor
  }

  /** The connect links as they should be drawn for the provider's state. */
  function ShownConnectLinks(theme: string, systemTheme: string): (r: seq<ShownLink>)
    ensures |r| == |ConnectLinks|
    ensures forall i :: 0 <= i < |r| ==>
      && r[i].href == ConnectLinks[i].href && r[i].text == ConnectLinks[i].text
      && r[i].icon == ConnectLinks[i].icon
      && r[i].color == LinkColorOnPage(ConnectLinks[i], PageIsDark(theme, systemTheme))
  {
    var dark := PageIsDark(theme, systemTheme);
    seq(|ConnectLinks|, i requires 0 <= i < |ConnectLinks| => var l := ConnectLinks[i];
      ShownLink(l.href, l.text, l.icon, LinkColorOnPage(l, dark)))
  }

  /** Where the mode is explicit, the corrected colours are the ones the source draws. */
  lemma CorrectedAgreesOnExplicitModes(theme: string, systemTheme: string)
    requires theme == "light" || theme == "dark"
    ensures ShownConnectLinks(theme, systemTheme) == MemoizedConnectLinks(theme)
  {
  }

  /**
   * With the corrected rule every icon has a colour, and none is the page's background, for
   * every mode, system scheme and team.
   */
  lemma ConnectIconsVisible(theme: string, systemTheme: string, team: string)
    requires Resolves(team)
    ensures var page := ThemeColors(team, AppliedTheme(theme, systemTheme)).value;
      var shown := ShownConnectLinks(theme, systemTheme);
      forall i :: 0 <= i < |shown| ==> shown[i].color.Some? && !SameColor(shown[i].color.value, page.background)
  {
    var page := ThemeColors(team, AppliedTheme(theme, systemTheme)).value;
    var shown := ShownConnectLinks(theme, systemTheme);
    forall i | 0 <= i < |shown| ensures shown[i].color.Some? && !SameColor(shown[i].color.value, page.background) {
      var c := shown[i].color.value;
      assert LowerChar(c[1]) != LowerChar(page.background[1]) || LowerChar(c[3]) != LowerChar(page.background[3]);
      assert Lower(c)[1] != Lower(page.background)[1] || Lower(c)[3] != Lower(page.background)[3];
    }
  }

  /** The toggle's label names the scheme the page is not in. */
  function ToggleLabelFor(theme: string, systemTheme: string): (r: string)
    ensures r == "Dark mode" <==> !PageIsDark(theme, systemTheme)
  {
    if PageIsDark(theme, systemTheme) then "Light mode" else "Dark mode"
  }

  /** For every mode the provider's type admits, the corrected label names where a click leads. */
  lemma ToggleLabelNamesTarget(theme: string, systemTheme: string)
    requires IsMode(theme) && IsScheme(systemTheme)
    ensures ToggleLabelFor(theme, systemTheme)
      == if AppliedTheme(Toggled(theme, systemTheme), systemTheme) == "dark" then "Dark mode" else "Light mode"
  {
  }

  /** What the sidebar shows for the provider's state. */
  datatype View = View(navigation: seq<NavLink>, toggleLabel: string, connect: seq<ShownLink>)

  /** As written: the label and the icon colours follow the mode, not the scheme shown. */
  function SidebarView(theme: string): (v: View)
    ensures v.navigation == NavigationLinks
    ensures v.toggleLabel == ToggleLabel(theme)
    ensures v.connect == MemoizedConnectLinks(theme)
    ensures theme == "system" ==> v.toggleLabel == "Light mode" && v.connect[0].color == Some("#FFFFFF")
  {
    View(NavigationLinks, ToggleLabel(theme), MemoizedConnectLinks(theme))
  }

  /**
   * Corrected: the label and the icon colours follow the scheme the page is shown in. Where
   * the mode is explicit the sidebar is the one the source draws.
   */
  function CorrectedSidebarView(theme: string, systemTheme: string): (v: View)
    ensures v.navigation == NavigationLinks
    ensures v.toggleLabel == ToggleLabelFor(theme, systemTheme)
    ensures v.connect == ShownConnectLinks(theme, systemTheme)
    ensures theme == "light" || theme == "dark" ==> v == SidebarView(theme)
  {
    var v := View(NavigationLinks, ToggleLabelFor(theme, systemTheme), ShownConnectLinks(theme, systemTheme));
    if theme == "light" || theme == "dark" then CorrectedAgreesOnExplicitModes(theme, systemTheme); v else v
  }
}
