/** The closed registry of compiled-in themes. */
module Themes {
  import opened Common
  import opened Text

  /** The exported theme names. */
  const ThemeDefault := "default"
  const ThemeDark := "dark"
  const ThemeLight := "light"
  const ThemeRosePine := "rosepine"

  /** The registry, in its fixed order. */
  const AvailableThemes: seq<string> := ["default", "dark", "light", "rosepine"]

  /** Whether a theme name is registered. Each registered name is a single,
      non-empty path segment, so it can stand for a router variable. */
  predicate ValidateTheme(theme: string): (r: bool)
    ensures r ==> theme != "" && '/' !in theme
  {
    theme in AvailableThemes
  }

  /** The registry accepts exactly the four built-in names; the empty name and
      every other name are rejected. */
  lemma ValidateThemeExactly(theme: string)
    ensures ValidateTheme(theme) <==>
      theme == "default" || theme == "dark" || theme == "light" || theme == "rosepine"
    ensures !ValidateTheme("")
  {
  }

  /** Every exported theme constant names a registered theme. */
  lemma ExportedThemesValid()
    ensures ValidateTheme(ThemeDefault) && ValidateTheme(ThemeDark)
    ensures ValidateTheme(ThemeLight) && ValidateTheme(ThemeRosePine)
  {
  }

  const ThemesDir := "/_themes/"
  const CssSuffix := ".css"

  /** The stylesheet URL of a theme under a mount prefix. */
  function GetThemePath(urlPrefix: string, theme: string): (r: string)
    ensures HasPrefix(r, urlPrefix + "/_themes/") && HasSuffix(r, ".css")
    ensures |r| == |urlPrefix| + |theme| + 13
    ensures r[|urlPrefix| + 9..|r| - 4] == theme
  {
    urlPrefix + ThemesDir + theme + CssSuffix
  }

  /** The `{theme}` a router pattern `head + "{theme}" + tail` extracts from a
      path: the text between the two fixed parts, non-empty and without '/'. */
  function RouteVariable(path: string, head: string, tail: string): (r: Option<string>)
    ensures r.Some? ==> path == head + r.value + tail && r.value != "" && '/' !in r.value
  {
    if |head| + |tail| < |path| && HasPrefix(path, head) && HasSuffix(path, tail) then
      var v := path[|head|..|path| - |tail|];
      assert path == head + v + tail;
      if '/' in v then None else Some(v)
    else None
  }

  /** The stylesheet URL of a valid theme routes back to that theme: the
      themes route reads the same name out of the URL the pages link to. */
  lemma ThemePathRoutesBack(urlPrefix: string, theme: string)
    requires ValidateTheme(theme)
    ensures RouteVariable(GetThemePath(urlPrefix, theme), urlPrefix + ThemesDir, CssSuffix) == Some(theme)
  {
    var path := GetThemePath(urlPrefix, theme);
    var head := urlPrefix + ThemesDir;
    assert path == head + theme + CssSuffix;
    assert path[|head|..|path| - |CssSuffix|] == theme;
  }

  /** Distinct themes get distinct stylesheet URLs under one prefix. */
  lemma ThemePathInjective(urlPrefix: string, t1: string, t2: string)
    requires GetThemePath(urlPrefix, t1) == GetThemePath(urlPrefix, t2)
    ensures t1 == t2
  {
    var p1, p2 := GetThemePath(urlPrefix, t1), GetThemePath(urlPrefix, t2);
    var n := |urlPrefix| + 9;
    assert p1[n..|p1| - 4] == t1;
    assert p2[n..|p2| - 4] == t2;
  }

  /** The registry in its fixed order: four names, no repeats, and exactly the
      names the validator accepts. */
  function ListAvailableThemes(): (r: seq<string>)
    ensures |r| == 4
    ensures forall i, j :: 0 <= i < j < |r| ==> r[i] != r[j]
    ensures forall t :: t in r <==> ValidateTheme(t)
    ensures r[0] == "default" && r[1] == "dark" && r[2] == "light" && r[3] == "rosepine"
  {
    AvailableThemes
  }
}
