/** The decisions the HTTP handlers make, with the HTTP plumbing removed: each
    handler yields the response it would write. */
module Handlers {
  import opened Common
  import opened Text
  import opened Models
  import opened Themes
  import opened Parser
  import opened Index

  newtype byte = b: int | 0 <= b < 256

  const StatusBadRequest := 400
  const StatusNotFound := 404
  const StatusInternalServerError := 500

  /** What a handler writes. `Html` is sent as "text/html; charset=utf-8";
      `DebugPage` is the debug page, of which the model keeps the three values
      the fixed HTML is built around. */
  datatype Response =
    | Html(html: string)
    | Asset(contentType: string, cacheControl: Option<string>, content: seq<byte>)
    | DebugPage(stylesheet: string, themeName: string, links: string)
    | HttpError(status: int, message: string)

  /** The response `http.NotFound` writes. */
  const NotFoundResponse := HttpError(StatusNotFound, "404 page not found")

  /** The data the post template is executed on. */
  datatype PostTemplateData = PostTemplateData(post: Post, blogPrefix: string, themeCss: string)

  /** Executing the post template: the HTML, or the template's error. */
  type Template = PostTemplateData -> Result<string>

  /** The embedded stylesheet files: contents by path, or the read error. */
  type Assets = string -> Result<seq<byte>>

  /** `renderPost` for a renderer with `theme`, answered as a handler does:
      the page, or a server error naming the template failure. */
  function PostResponse(post: Post, blogPrefix: string, theme: string, execute: Template): (r: Response)
    ensures r.Html? || (r.HttpError? && r.status == StatusInternalServerError)
    ensures var data := PostTemplateData(post, blogPrefix, GetThemePath(blogPrefix, theme));
      && (r.Html? <==> execute(data).Ok?)
      && (r.Html? ==> r.html == execute(data).value)
      && (r.HttpError? ==> r.message == "Error rendering post: " + execute(data).error.message)
  {
    match execute(PostTemplateData(post, blogPrefix, GetThemePath(blogPrefix, theme)))
    case Err(e) => HttpError(StatusInternalServerError, "Error rendering post: " + e.message)
    case Ok(html) => Html(html)
  }

  // ---------------------------------------------------------------------
  // Single post

  function SlugIs(slug: string): Post -> bool {
    (p: Post) => p.slug == slug
  }

  /** The single-post page: the first post in index order with the requested
      slug, rendered, or not-found. */
  function SinglePostResponse(posts: seq<Post>, slug: string, blogPrefix: string, theme: string, execute: Template): Response {
    var k := FirstMatch(posts, SlugIs(slug));
    if k < 0 then NotFoundResponse else PostResponse(posts[k], blogPrefix, theme, execute)
  }

  /** `handleSinglePost`: scans the index in order and answers on the first
      post whose slug matches. */
  method HandleSinglePost(b: Blog, slug: string, execute: Template) returns (r: Response)
    ensures r == SinglePostResponse(b.posts, slug, b.config.urlPrefix, b.renderer.theme, execute)
  {
    var posts := b.posts;
    var i := 0;
    while i < |posts|
      invariant 0 <= i <= |posts|
      invariant FirstMatch(posts[..i], SlugIs(slug)) < 0
    {
      FirstMatchStep(posts, i, SlugIs(slug));
      if posts[i].slug == slug {
        return PostResponse(posts[i], b.config.urlPrefix, b.renderer.theme, execute);
      }
      i := i + 1;
    }
    FirstMatchNone(posts, SlugIs(slug));
    return NotFoundResponse;
  }

  /** The page is not-found exactly when no post has the slug. */
  lemma SinglePostNotFound(posts: seq<Post>, slug: string, blogPrefix: string, theme: string, execute: Template)
    ensures SinglePostResponse(posts, slug, blogPrefix, theme, execute) == NotFoundResponse
      <==> forall i :: 0 <= i < |posts| ==> posts[i].slug != slug
  {
    var k := FirstMatch(posts, SlugIs(slug));
    if k >= 0 {
      assert SlugIs(slug)(posts[k]);
    }
  }

  /** With several posts under one slug, the earliest in index order is the
      one rendered. */
  lemma SinglePostIsEarliest(posts: seq<Post>, slug: string, i: nat, blogPrefix: string, theme: string, execute: Template)
    requires i < |posts| && posts[i].slug == slug
    requires forall j :: 0 <= j < i ==> posts[j].slug != slug
    ensures SinglePostResponse(posts, slug, blogPrefix, theme, execute) == PostResponse(posts[i], blogPrefix, theme, execute)
  {
    var k := FirstMatch(posts, SlugIs(slug));
    assert SlugIs(slug)(posts[i]);
    if k >= 0 {
      assert SlugIs(slug)(posts[k]);
    }
  }

  // ---------------------------------------------------------------------
  // Stylesheets

  /** Where a theme's stylesheet lives among the embedded files. */
  function ThemeAssetPath(theme: string): string {
    "assets/themes/" + theme + ".css"
  }

  const NoCache := "no-cache, no-store, must-revalidate"

  /** Both stylesheet handlers: check the name against the registry, then
      read the file and send it with the handler's headers. */
  function ThemeAsset(theme: string, assets: Assets, contentType: string, cacheControl: Option<string>): Response {
    if !ValidateTheme(theme) then NotFoundResponse
    else match assets(ThemeAssetPath(theme))
      case Err(e) => HttpError(StatusNotFound, "Theme not found: " + e.message)
      case Ok(content) => Asset(contentType, cacheControl, content)
  }

  /** `handleThemeCSS`: the stylesheet as CSS that must not be cached. */
  function HandleThemeCss(theme: string, assets: Assets): (r: Response)
    ensures r.Asset? ==> ValidateTheme(theme) && r.contentType == "text/css" && r.cacheControl == Some(NoCache)
    ensures r.Asset? <==> ValidateTheme(theme) && assets(ThemeAssetPath(theme)).Ok?
  {
    ThemeAsset(theme, assets, "text/css", Some(NoCache))
  }

  /** `handleRawThemeCSS`: the stylesheet as plain text. */
  function HandleRawThemeCss(theme: string, assets: Assets): (r: Response)
    ensures r.Asset? ==> ValidateTheme(theme) && r.contentType == "text/plain" && r.cacheControl == None
    ensures r.Asset? <==> ValidateTheme(theme) && assets(ThemeAssetPath(theme)).Ok?
  {
    ThemeAsset(theme, assets, "text/plain", None)
  }

  /** A name outside the registry is refused before any file is read: the
      answer is not-found whatever the embedded files hold. */
  lemma InvalidThemeReadsNothing(theme: string, a1: Assets, a2: Assets)
    requires !ValidateTheme(theme)
    ensures HandleThemeCss(theme, a1) == HandleThemeCss(theme, a2) == NotFoundResponse
    ensures HandleRawThemeCss(theme, a1) == HandleRawThemeCss(theme, a2) == NotFoundResponse
  {
  }

  /** For a registered theme both handlers send the same file's bytes, or the
      same not-found error naming the read failure. */
  lemma StylesheetHandlersAgree(theme: string, assets: Assets)
    requires ValidateTheme(theme)
    ensures HandleThemeCss(theme, assets).Asset? ==>
      HandleRawThemeCss(theme, assets).Asset? && HandleThemeCss(theme, assets).content == HandleRawThemeCss(theme, assets).content
      && HandleThemeCss(theme, assets).content == assets(ThemeAssetPath(theme)).value
    ensures !HandleThemeCss(theme, assets).Asset? ==>
      HandleThemeCss(theme, assets) == HandleRawThemeCss(theme, assets)
      == HttpError(StatusNotFound, "Theme not found: " + assets(ThemeAssetPath(theme)).error.message)
  {
  }

  // ---------------------------------------------------------------------
  // Debug page

  /** `GetCurrentTheme`: the theme the blog's renderer uses. */
  function GetCurrentTheme(b: Blog): (r: string)
    reads b
    ensures r == b.renderer.theme
  {
    b.renderer.theme
  }

  /** The theme the debug page shows: none (a bad request) for a non-empty
      name outside the registry, the current theme for an empty override,
      and the override itself otherwise. */
  function DebugTheme(themeOverride: string, current: string): (r: Option<string>)
    ensures r.None? <==> themeOverride != "" && !ValidateTheme(themeOverride)
    ensures themeOverride == "" ==> r == Some(current)
    ensures ValidateTheme(themeOverride) ==> r == Some(themeOverride)
  {
    if themeOverride != "" && !ValidateTheme(themeOverride) then None
    else if themeOverride != "" then Some(themeOverride)
    else Some(current)
  }

  /** The link that opens the debug page under `theme`. */
  function DebugHref(blogPrefix: string, theme: string): string {
    blogPrefix + "/_debug/" + theme
  }

  /** One entry of the theme list on the debug page. */
  function LinkItem(blogPrefix: string, theme: string): string {
    "<li><a href=\"" + DebugHref(blogPrefix, theme) + "\">" + theme + "</a></li>"
  }

  /** The list entries for `themes`, in order. */
  function ThemeLinks(blogPrefix: string, themes: seq<string>): string {
    if |themes| == 0 then ""
    else ThemeLinks(blogPrefix, themes[..|themes| - 1]) + LinkItem(blogPrefix, themes[|themes| - 1])
  }

  function DebugResponse(blogPrefix: string, current: string, themeOverride: string): Response {
    match DebugTheme(themeOverride, current)
    case None => HttpError(StatusBadRequest, "Invalid theme name")
    case Some(name) => DebugPage(GetThemePath(blogPrefix, name), name, ThemeLinks(blogPrefix, AvailableThemes))
  }

  /** `handleDebug`: gate the override, choose the theme, and list a link
      for every registered theme. */
  method HandleDebug(b: Blog, themeOverride: string) returns (r: Response)
    ensures r == DebugResponse(b.config.urlPrefix, GetCurrentTheme(b), themeOverride)
  {
    if themeOverride != "" && !ValidateTheme(themeOverride) {
      return HttpError(StatusBadRequest, "Invalid theme name");
    }
    var themeName := b.renderer.theme;
    if themeOverride != "" {
      themeName := themeOverride;
    }
    var stylesheet := GetThemePath(b.config.urlPrefix, themeName);
    var links := "";
    var i := 0;
    while i < |AvailableThemes|
      invariant 0 <= i <= |AvailableThemes|
      invariant links == ThemeLinks(b.config.urlPrefix, AvailableThemes[..i])
    {
      assert AvailableThemes[..i + 1][..i] == AvailableThemes[..i];
      links := links + LinkItem(b.config.urlPrefix, AvailableThemes[i]);
      i := i + 1;
    }
    assert AvailableThemes[..|AvailableThemes|] == AvailableThemes;
    return DebugPage(stylesheet, themeName, links);
  }

  /** The list holds one entry per registered theme, in registry order. */
  lemma DebugLinksInRegistryOrder(blogPrefix: string)
    ensures ThemeLinks(blogPrefix, AvailableThemes) ==
      LinkItem(blogPrefix, "default") + LinkItem(blogPrefix, "dark")
      + LinkItem(blogPrefix, "light") + LinkItem(blogPrefix, "rosepine")
  {
    var p := blogPrefix;
    var ts := AvailableThemes;
    assert ts[..3] == ["default", "dark", "light"];
    assert ts[..3][..2] == ["default", "dark"];
    assert ts[..3][..2][..1] == ["default"];
    assert ts[..3][..2][..1][..0] == [];
    assert ThemeLinks(p, ["default"]) == LinkItem(p, "default");
    assert ThemeLinks(p, ["default", "dark"]) == LinkItem(p, "default") + LinkItem(p, "dark");
    assert ThemeLinks(p, ["default", "dark", "light"])
      == LinkItem(p, "default") + LinkItem(p, "dark") + LinkItem(p, "light");
  }

  /** The debug page's stylesheet and theme name always agree, and with no
      override it shows the renderer's current theme. */
  lemma DebugPageShowsSelectedTheme(blogPrefix: string, current: string, themeOverride: string)
    ensures DebugResponse(blogPrefix, current, themeOverride).DebugPage? ==>
      var r := DebugResponse(blogPrefix, current, themeOverride);
      r.stylesheet == GetThemePath(blogPrefix, r.themeName)
      && (themeOverride == "" ==> r.themeName == current)
      && (themeOverride != "" ==> r.themeName == themeOverride && ValidateTheme(r.themeName))
  {
  }

  // ---------------------------------------------------------------------
  // Standalone post handler

  /** The theme `PostHandler` renders with: "default" in place of the empty
      name, any other name as given. */
  function PostHandlerTheme(theme: string): (r: string)
    ensures r != ""
    ensures theme != "" ==> r == theme
    ensures theme == "" ==> r == DefaultTheme
  {
    if theme == "" then "default" else theme
  }

  /** The handler `PostHandler` returns, answering one request: parse the
      file, build a renderer for the chosen theme and the fixed "/blog"
      prefix, render. `templates` is the outcome of building the renderer's
      templates. */
  function PostHandler(theme: string, file: File, convert: Converter, templates: Result<Template>): (r: Response)
    ensures r.Html? || (r.HttpError? && r.status == StatusInternalServerError)
    ensures r.Html? ==> ParsePostSpec(file, convert).Ok? && templates.Ok?
  {
    match ParsePostSpec(file, convert)
    case Err(e) => HttpError(StatusInternalServerError, "Error parsing post: " + e.message)
    case Ok(post) =>
      match templates
      case Err(e) => HttpError(StatusInternalServerError, "Error creating renderer: " + e.message)
      case Ok(execute) => PostResponse(post, "/blog", PostHandlerTheme(theme), execute)
  }

  /** An empty theme behaves exactly as "default". */
  lemma PostHandlerDefaultTheme(file: File, convert: Converter, templates: Result<Template>)
    ensures PostHandler("", file, convert, templates) == PostHandler("default", file, convert, templates)
  {
  }

  /** A parse failure is answered before the renderer is built, whatever
      the theme or the templates. */
  lemma PostHandlerParseFailure(theme: string, file: File, convert: Converter, templates: Result<Template>)
    requires ParsePostSpec(file, convert).Err?
    ensures PostHandler(theme, file, convert, templates)
      == HttpError(StatusInternalServerError, "Error parsing post: " + ParsePostSpec(file, convert).error.message)
  {
  }

  /** A successful page is the parsed post rendered under "/blog" with the
      stylesheet of the chosen theme. */
  lemma PostHandlerRendersParsedPost(theme: string, file: File, convert: Converter, execute: Template)
    requires ParsePostSpec(file, convert).Ok?
    ensures PostHandler(theme, file, convert, Ok(execute)) ==
      match execute(PostTemplateData(ParsePostSpec(file, convert).value, "/blog", GetThemePath("/blog", PostHandlerTheme(theme))))
      case Ok(html) => Html(html)
      case Err(e) => HttpError(StatusInternalServerError, "Error rendering post: " + e.message)
  {
  }

  // ---------------------------------------------------------------------
  // Registration

  /** What `RegisterHandlers` does besides installing routes: return, or
      panic with a message. */
  datatype Registration = Registered | Panicked(message: string)

  /** `RegisterHandlers`: build the index only when it is empty; a failure
      there panics. */
  method RegisterHandlers(b: Blog, entries: seq<Entry>) returns (r: Registration)
    modifies b`posts
    ensures old(b.posts) != [] ==> r == Registered && b.posts == old(b.posts)
    ensures old(b.posts) == [] && WalkOf(entries).failure.Some? ==>
      r == Panicked("Failed to initialize blog: " + WalkOf(entries).failure.value.message)
      && b.posts == WalkOf(entries).posts
    ensures old(b.posts) == [] && WalkOf(entries).failure.None? ==>
      r == Registered && multiset(b.posts) == multiset(WalkOf(entries).posts) && NewestFirst(b.posts)
  {
    if |b.posts| == 0 {
      var err := b.Initialize(entries);
      if err.Some? {
        return Panicked("Failed to initialize blog: " + err.value.message);
      }
    }
    return Registered;
  }

  // ---------------------------------------------------------------------
  // Routes

  /** The handler a request reaches, with its path variable. */
  datatype Endpoint =
    | ListPosts
    | SinglePost(slug: string)
    | ThemeCss(theme: string)
    | Debug(themeOverride: string)
    | RawThemeCss(theme: string)

  /** A route of the blog's sub-router under `blogPrefix`, numbered in the
      order `RegisterHandlers` adds them: the endpoint it gives `path`, if its
      pattern matches. A `{name}` variable matches a non-empty run without '/'. */
  function MatchRoute(blogPrefix: string, path: string, route: nat): Option<Endpoint> {
    if route == 0 then (if path == blogPrefix then Some(ListPosts) else None)
    else if route == 1 then
      match RouteVariable(path, blogPrefix + "/", "")
      case Some(v) => Some(SinglePost(v))
      case None => None
    else if route == 2 then
      match RouteVariable(path, blogPrefix + ThemesDir, CssSuffix)
      case Some(v) => Some(ThemeCss(v))
      case None => None
    else if route == 3 then (if path == blogPrefix + "/_debug" then Some(Debug("")) else None)
    else if route == 4 then
      match RouteVariable(path, blogPrefix + "/_debug/", "")
      case Some(v) => Some(Debug(v))
      case None => None
    else
      match RouteVariable(path, blogPrefix + "/_raw_themes/", CssSuffix)
      case Some(v) => Some(RawThemeCss(v))
      case None => None
  }

  /** The first of two routes that matches. */
  function OrElse(first: Option<Endpoint>, second: Option<Endpoint>): Option<Endpoint> {
    if first.Some? then first else second
  }

  /** The router tries routes in the order they were added, so the
      catch-all slug route comes before "/_debug". */
  function RouteAsRegistered(blogPrefix: string, path: string): Option<Endpoint> {
    var m := (k: nat) => MatchRoute(blogPrefix, path, k);
    OrElse(m(0), OrElse(m(1), OrElse(m(2), OrElse(m(3), OrElse(m(4), m(5))))))
  }

  /** The routes with "/_debug" tried before the slug route. */
  function Route(blogPrefix: string, path: string): Option<Endpoint> {
    var m := (k: nat) => MatchRoute(blogPrefix, path, k);
    OrElse(m(0), OrElse(m(3), OrElse(m(1), OrElse(m(2), OrElse(m(4), m(5))))))
  }

  /** The variable a pattern `head + "{v}" + tail` reads from `head + v + tail`. */
  lemma RouteVariableOf(head: string, v: string, tail: string)
    ensures RouteVariable(head + v + tail, head, tail) == if v != "" && '/' !in v then Some(v) else None
  {
    var path := head + v + tail;
    if v != "" {
      assert path[..|head|] == head;
      assert path[|path| - |tail|..] == tail;
      assert path[|head|..|path| - |tail|] == v;
    }
  }

  /** A path that differs from `head` at position `k` matches no pattern
      that starts with `head`. */
  lemma RouteVariableMismatch(path: string, head: string, tail: string, k: nat)
    requires k < |head| && k < |path| && path[k] != head[k]
    ensures RouteVariable(path, head, tail) == None
  {
    if |head| <= |path| {
      assert path[..|head|][k] != head[k];
    }
  }

  /** As registered, the slug route takes "_debug" for a slug, and the debug
      page without an override is never reached. */
  lemma DebugIndexShadowed(blogPrefix: string)
    ensures RouteAsRegistered(blogPrefix, blogPrefix + "/_debug") == Some(SinglePost("_debug"))
  {
    var path := blogPrefix + "/_debug";
    assert path != blogPrefix by { assert |path| == |blogPrefix| + 7; }
    assert path == (blogPrefix + "/") + "_debug" + "";
    RouteVariableOf(blogPrefix + "/", "_debug", "");
  }

  /** With "/_debug" tried before the slug route it reaches the debug page. */
  lemma DebugIndexReachable(blogPrefix: string)
    ensures Route(blogPrefix, blogPrefix + "/_debug") == Some(Debug(""))
  {
    var path := blogPrefix + "/_debug";
    assert path != blogPrefix by { assert |path| == |blogPrefix| + 7; }
  }

  /** The corrected order routes every other path as the registered one. */
  lemma RouteAgreesElsewhere(blogPrefix: string, path: string)
    requires path != blogPrefix + "/_debug"
    ensures Route(blogPrefix, path) == RouteAsRegistered(blogPrefix, path)
  {
    assert MatchRoute(blogPrefix, path, 3) == None;
  }

  /** The stylesheet URL a page links to reaches the CSS handler for that
      theme, under either order. */
  lemma StylesheetLinkRoutes(blogPrefix: string, theme: string)
    requires ValidateTheme(theme)
    ensures Route(blogPrefix, GetThemePath(blogPrefix, theme)) == Some(ThemeCss(theme))
    ensures RouteAsRegistered(blogPrefix, GetThemePath(blogPrefix, theme)) == Some(ThemeCss(theme))
  {
    StylesheetPathRoutes(blogPrefix, theme);
  }

  lemma StylesheetPathRoutes(blogPrefix: string, theme: string)
    requires theme != "" && '/' !in theme
    ensures Route(blogPrefix, GetThemePath(blogPrefix, theme)) == Some(ThemeCss(theme))
    ensures RouteAsRegistered(blogPrefix, GetThemePath(blogPrefix, theme)) == Some(ThemeCss(theme))
  {
    var path := GetThemePath(blogPrefix, theme);
    assert |path| == |blogPrefix| + |theme| + 13;
    assert path != blogPrefix && path != blogPrefix + "/_debug";
    var rest := "_themes/" + theme + ".css";
    assert path == (blogPrefix + "/") + rest + "";
    assert rest[7] == '/';
    RouteVariableOf(blogPrefix + "/", rest, "");
    assert path == (blogPrefix + ThemesDir) + theme + CssSuffix;
    RouteVariableOf(blogPrefix + ThemesDir, theme, CssSuffix);
    assert MatchRoute(blogPrefix, path, 1) == None;
    assert MatchRoute(blogPrefix, path, 2) == Some(ThemeCss(theme));
  }

  /** A registered theme name is one path segment. */
  lemma DebugHrefRoutes(blogPrefix: string, theme: string)
    requires theme != "" && '/' !in theme
    ensures Route(blogPrefix, DebugHref(blogPrefix, theme)) == Some(Debug(theme))
  {
    var path := DebugHref(blogPrefix, theme);
    assert |path| == |blogPrefix| + |theme| + 8;
    assert path != blogPrefix && path != blogPrefix + "/_debug";
    var rest := "_debug/" + theme;
    assert path == (blogPrefix + "/") + rest + "";
    assert rest[6] == '/';
    RouteVariableOf(blogPrefix + "/", rest, "");
    var k := |blogPrefix| + 2;
    assert path[k] == 'd' && (blogPrefix + ThemesDir)[k] == 't';
    RouteVariableMismatch(path, blogPrefix + ThemesDir, CssSuffix, k);
    assert path == (blogPrefix + "/_debug/") + theme + "";
    RouteVariableOf(blogPrefix + "/_debug/", theme, "");
    assert MatchRoute(blogPrefix, path, 1) == None;
    assert MatchRoute(blogPrefix, path, 2) == None;
  }

  /** Every link in the debug page's list reaches the debug page under its
      theme, which then shows that theme. */
  lemma DebugLinkSelectsTheme(blogPrefix: string, current: string, theme: string)
    requires ValidateTheme(theme)
    ensures Route(blogPrefix, DebugHref(blogPrefix, theme)) == Some(Debug(theme))
    ensures RouteAsRegistered(blogPrefix, DebugHref(blogPrefix, theme)) == Some(Debug(theme))
    ensures DebugResponse(blogPrefix, current, theme).DebugPage?
    ensures DebugResponse(blogPrefix, current, theme).themeName == theme
  {
    var path := DebugHref(blogPrefix, theme);
    DebugHrefRoutes(blogPrefix, theme);
    assert |path| == |blogPrefix| + |theme| + 8;
    RouteAgreesElsewhere(blogPrefix, path);
  }
}
