# glogger content pipeline in Dafny

This project models the core of glogger, a Go package that serves a markdown blog
under a URL prefix. The model covers:

- **Post parser** (`Parser`). It takes the title from the first `# ` heading anywhere
  in the file. It takes the date from the first of the first three lines that starts
  with `dddd-dd-dd` and whose trimmed text is a valid `YYYY-MM-DD` calendar date.
  A missing or zero date falls back to the file's modification time. The body is the
  other lines, rejoined with `"\n"`.
- **Content index** (`Index`). It walks the content directory, keeps only `.md`
  files, derives each post's slug from the file's base name, stops at the first
  error, sorts newest first, and hands callers a copy.
- **Configuration defaults** (`Models`).
- **Theme registry** (`Themes`). It holds four fixed names and builds stylesheet URLs.
- **Request handlers** (`Handlers`). These are the decisions they take, without the
  HTTP plumbing:
  - first-match slug lookup;
  - the registry check before a stylesheet is read;
  - the debug page's theme selection and link list;
  - the empty-theme default of `PostHandler`;
  - building the index only while it is empty, and the panic on failure;
  - the order of the routes.
- **Earlier `glog` package** (`Glog`). Its parser takes only the title, uses the
  modification time as the date, and converts the whole file.

The Go library behaviour the core relies on is modelled in three support modules:

- `Text`: `strings.Split`, `strings.Join`, `strings.TrimSpace`, prefixes and suffixes.
- `Paths`: `filepath.Base` and `filepath.Ext`, for '/' separators.
- `Dates`: `time.Parse` with layout `2006-01-02`, and `IsZero`.

Dates are instants in nanoseconds since Go's zero time, 0001-01-01 UTC. A parsed
date is that day's midnight UTC. A parsed `0001-01-01` is therefore the zero time.

Where the code does step-by-step work, the model does too:

- `setDefaults` is a method that updates a `Config` object.
- `initialize` resets the index's `posts` field and appends to it, as the walk
  callback `VisitEntry` does, then sorts it in place with `SortNewestFirst`.
- `initialize`'s walk is proved against the specification function `WalkOf`.
- The scan loops of `parsePost`, `handleSinglePost` and `handleDebug` are `while`
  loops. Each is proved against a specification function: `ParsePostSpec`,
  `SinglePostResponse`, `DebugResponse`.

`Handlers.GetCurrentTheme` (handlers.go:91-93) reads the renderer's theme.
`HandleDebug`'s contract is stated through it.

The markdown converter, the file system, the directory walk, the template engine
and the embedded stylesheet files are inputs:

- a `Converter` function;
- `File` records: the read result and the stat result;
- `Entry` records: the visited path, the walk error, whether it is a directory, and
  the parse result;
- a `Template` function;
- an `Assets` function.

Three behaviours of the code shape what the model can state:

- `sort.Slice` is not stable, so the model says nothing about the order of posts
  with equal dates.
- `setDefaults` does not check the theme name, so an unknown theme is kept.
- A failed rebuild leaves `posts` holding the posts appended before the failure. The
  previous index is not kept.

## Model

| member | source | states |
|---|---|---|
| Common.FirstMatch | parser.go:30-36 | The index of the first element that satisfies the test, or -1. Every earlier element, or every element when the result is -1, fails the test. |
| Text.TrimPrefix | parser.go:32 | With the prefix present, prefix + result is the input. Otherwise the input is returned unchanged. |
| Text.TrimSuffix | blog.go:62 | With the suffix present, result + suffix is the input. Otherwise the input is returned unchanged. |
| Text.TrimLeftSpace | parser.go:43 | A suffix of the input. Only white space is dropped, and the result does not start with white space. |
| Text.TrimRightSpace | parser.go:43 | A prefix of the input. Only white space is dropped, and the result does not end with white space. |
| Text.TrimSpace | parser.go:43 | The input is the result with only white space before and after it; a non-empty result neither starts nor ends with white space. |
| Text.Split | parser.go:23 | At least one piece, and no piece contains a newline. |
| Text.Join | parser.go:68 | No lines join to ""; otherwise the text starts with the first line and ends with the last. |
| Text.JoinSplit | parser.go:68 | Joining the split lines with "\n" gives back the original text. |
| Text.SplitJoin | parser.go:68 | Splitting a join of newline-free lines gives back the lines. |
| Paths.StripTrailingSlashes | blog.go:61 | A prefix of the path that does not end in '/'. Everything dropped is '/'. |
| Paths.LastElement | blog.go:61 | A suffix of the path, without '/', preceded by '/' when shorter than the path. |
| Paths.Base | blog.go:61 | "." for the empty path and "/" exactly for a path of slashes only. Otherwise the text after the last '/' once trailing slashes are dropped: non-empty, no '/'. |
| Paths.Ext | blog.go:62 | A suffix of the name without '/'. When non-empty it starts at the last '.' (no other '.' follows). When empty, the last element has no '.'. |
| Paths.Slug | blog.go:61-62 | The slug followed by the base name's extension is the base name. |
| Paths.LastElementAppend | blog.go:61 | Appending separator-free text extends the last element by that text. |
| Paths.ExtOfMarkdownName | blog.go:62 | The extension of any name ending in ".md" is ".md". |
| Paths.SlugOfMarkdownPath | blog.go:61-62 | For a path ending in ".md", slug + ".md" is the base name, the slug has no '/', and the path ends in slug + ".md". |
| Dates.ParseDate | parser.go:43 | Every parsed date is a valid calendar date in years 0000-9999. |
| Dates.Format | parser.go:43 | The layout text of a date has ten characters. |
| Dates.ParseFormat | parser.go:43 | The text parses to a date exactly when the date is valid and the text is that date in YYYY-MM-DD form. |
| Dates.ParseOfFormat | parser.go:43 | Parsing the YYYY-MM-DD text of a valid date gives that date back. |
| Dates.FormatOfParse | parser.go:43 | Text that parses is the YYYY-MM-DD text of its date, with no other spelling accepted. |
| Dates.DayWithinYear | parser.go:44 | A valid date's day number falls inside its year. |
| Dates.YearsAscend | parser.go:44 | Earlier years end before later years begin. |
| Dates.DayNumberAscends | blog.go:74 | A calendar-earlier date has a smaller day number. |
| Dates.MidnightOrder | blog.go:74 | Instants order valid dates as the calendar does, and equal instants mean equal dates. |
| Dates.ZeroMidnight | parser.go:52 | A parsed date is Go's zero time exactly when it is 0001-01-01. |
| Dates.DateLineStartsWithDigit | parser.go:42 | A qualifying date line starts with a digit. |
| Dates.DateLineShape | parser.go:41-43 | A line qualifies exactly when it has the dddd-dd-dd prefix, its first ten characters are a valid date, and the rest is white space. |
| Models.WithDefaults | models.go:45-61 | After defaulting, the content directory, URL prefix and theme are non-empty, the page size is not 0, and the author is the caller's. |
| Models.WithDefaultsKeepsSetFields | models.go:46-60 | Set fields are kept, including an unknown theme and a negative page size. Empty fields get exactly "content/posts", "/blog", 10 and "default". |
| Models.WithDefaultsIdempotent | models.go:45-61 | Applying the defaults twice is applying them once. |
| Models.Config.SetDefaults | models.go:45-61 | The object's new value is the old value with defaults applied. |
| Themes.ValidateTheme | themes.go:20-22 | An accepted name is non-empty and has no '/', so it fits one URL segment. |
| Themes.ValidateThemeExactly | themes.go:12-22 | A name is valid exactly when it is default, dark, light or rosepine. The empty name is rejected. |
| Themes.ExportedThemesValid | glogger.go:9-12 | All four exported theme constants are valid. |
| Themes.GetThemePath | themes.go:25-27 | The URL starts with prefix + "/_themes/", ends in ".css", and the text between them is exactly the name. |
| Themes.RouteVariable | handlers.go:197 | A matched variable is the non-empty, '/'-free text between the pattern's fixed parts. |
| Themes.ThemePathRoutesBack | themes.go:25-27 | The themes route reads a valid theme's own name back out of its stylesheet URL. |
| Themes.ThemePathInjective | themes.go:25-27 | Distinct themes get distinct stylesheet URLs under one prefix. |
| Themes.ListAvailableThemes | themes.go:30-32 | Four distinct names in the fixed order, exactly the names the validator accepts. |
| Parser.FindTitle | parser.go:29-36 | The scan yields the index of the first heading line and that line without its marker, or -1 and "Untitled Post". |
| Parser.FindDate | parser.go:39-49 | The index of the first qualifying line among the first three, with its instant, or -1 and the zero time. |
| Parser.RemoveLines | parser.go:61-66 | The lines in order without the title and date lines. |
| Parser.ParsePost | parser.go:16-86 | The parse result equals ParsePostSpec: read error, stat error only for an undated file, mod-time fallback, conversion of the filtered body, the post. |
| Parser.WithoutKeepsOthers | parser.go:61-66 | The body has one fewer line per marker found. Every other line is kept in order, shifted by the markers before it. |
| Parser.WithoutDrawsFromLines | parser.go:61-66 | Removing lines adds none: each body line occurs in the file at least as often. |
| Parser.WithoutNothing | parser.go:61-66 | With no markers, no line is removed. |
| Parser.TitleAndDateDiffer | parser.go:29-49 | The title line and the date line are never the same line. |
| Parser.TitleIsFirstHeading | parser.go:25-36 | The title is the first "# " line, at any index, with only that prefix removed. With no heading it is "Untitled Post". |
| Parser.DateIsFirstDateLine | parser.go:39-49 | The date line is among the first three lines. It is the first qualifying line, and no earlier line qualifies. |
| Parser.ReadFailurePropagates | parser.go:17-20 | A read failure is returned as is. |
| Parser.ParsedPost | parser.go:80-85 | A post keeps the raw file text and the title. Its content is the converted body, and its date is the line's date or the mod time. |
| Parser.StatOnlyWhenUndated | parser.go:52-58 | With a non-zero line date, the stat result, even a failure, does not affect the parse. |
| Parser.ZeroDateLine | parser.go:52-66 | A 0001-01-01 date line gives the zero time, yet that line is still removed: the body has one line fewer than with the date line left in. |
| Parser.PlainFileBodyIsRaw | parser.go:22-68 | With no title line and no date line, the converter gets the raw text. |
| Parser.StatFailurePropagates | parser.go:51-55 | With no usable line date (none, or 0001-01-01), a stat failure is returned as is. |
| Parser.ConvertFailurePropagates | parser.go:76-78 | A conversion failure is returned as is. |
| Index.Visit | blog.go:44-67 | A failure carries the walk error, else the parse error. An added post is the parsed post with only its slug set. |
| Index.VisitCases | blog.go:44-66 | The callback skips exactly the directories and non-".md" files, and fails exactly on a walk or parse error. It otherwise adds the parsed post under slug = base name minus ".md". |
| Index.WalkOf | blog.go:40-70 | The walk over the entries, stopping at the first failure: at most one post per entry. |
| Index.WalkStopsAtFailure | blog.go:44-70 | Once an entry fails, later entries change nothing. |
| Index.WalkIgnoresSkipped | blog.go:50-52 | A skipped entry can be removed anywhere in the walk without changing its result. |
| Index.WalkPostsComeFromEntries | blog.go:55-65 | Every indexed post is the post the callback added for some walked entry. |
| Index.WalkPostsAreAdded | blog.go:41-67 | The indexed posts are always a prefix of the posts the callback adds, in walk order. With no failure they are exactly those posts, each once. |
| Index.AddedHoldsEach | blog.go:62-65 | Every post the callback adds for an entry is among the added posts. |
| Index.WalkKeepsAdded | blog.go:41-70 | A walk that does not fail indexes every post the callback adds. |
| Index.Blog.constructor | blog.go:17-32 | The configuration with defaults applied, no posts, the given renderer. |
| Index.Blog.Initialize | blog.go:40-78 | Returns the walk's first error. On error, posts are the ones appended before it, unsorted. On success, posts are a permutation of the walked posts, newest first. |
| Index.Blog.VisitEntry | blog.go:44-67 | One callback call advances the walk state by exactly one step. |
| Index.Blog.SortNewestFirst | blog.go:73-75 | The posts are permuted into non-increasing publish-date order. |
| Index.Blog.GetPosts | blog.go:81-85 | A fresh array holding the posts in index order. |
| Handlers.PostResponse | handlers.go:16-23 | The page the template renders from the post, prefix and theme stylesheet, or, exactly when that fails, a 500 error carrying "Error rendering post: " and the template error. |
| Handlers.HandleSinglePost | handlers.go:10-29 | The scan's answer is the first post with the slug, rendered, or not-found. |
| Handlers.SinglePostNotFound | handlers.go:14-28 | Not-found exactly when no post has the slug. |
| Handlers.SinglePostIsEarliest | handlers.go:14-28 | With duplicate slugs, the earliest post in index order is rendered. |
| Handlers.HandleThemeCss | handlers.go:42-60 | Asset bytes only for a valid theme whose file reads, sent as text/css with no-cache headers. |
| Handlers.HandleRawThemeCss | handlers.go:161-178 | Asset bytes only for a valid theme whose file reads, sent as text/plain. |
| Handlers.InvalidThemeReadsNothing | handlers.go:46-49 | For an invalid name, both handlers answer not-found whatever the files hold. |
| Handlers.StylesheetHandlersAgree | handlers.go:51-55 | For a valid theme, both handlers send the same file bytes or the same 404 naming the read error. |
| Handlers.GetCurrentTheme | handlers.go:91-93 | The renderer's theme. |
| Handlers.DebugTheme | handlers.go:99-107 | Bad request exactly for a non-empty invalid override. An empty override selects the current theme, and a valid one selects itself. |
| Handlers.HandleDebug | handlers.go:95-159 | The page equals DebugResponse: the selected theme, its stylesheet URL, and the link list built by the loop. |
| Handlers.DebugLinksInRegistryOrder | handlers.go:144-146 | One link per registered theme, in registry order. |
| Handlers.DebugPageShowsSelectedTheme | handlers.go:104-142 | The stylesheet is the shown theme's. With no override it is the current theme, else the valid override. |
| Handlers.PostHandlerTheme | handlers.go:63-65 | The empty theme becomes "default". Any other theme is kept. |
| Handlers.PostHandler | handlers.go:62-89 | A page or a 500 error, and a page only when the file parses and the templates build. |
| Handlers.PostHandlerDefaultTheme | handlers.go:62-89 | A handler built with "" answers exactly as one built with "default". |
| Handlers.PostHandlerParseFailure | handlers.go:68-72 | A parse failure gives a 500 with the parse error, whatever the theme and templates. |
| Handlers.PostHandlerRendersParsedPost | handlers.go:74-87 | The parsed post is rendered with prefix "/blog" and the chosen theme's stylesheet. |
| Handlers.RegisterHandlers | handlers.go:180-186 | A non-empty index is kept. An empty one is built, and a build failure panics with "Failed to initialize blog: " and the error. |
| Handlers.DebugIndexShadowed | handlers.go:194-200 | As registered, prefix + "/_debug" reaches the single-post handler with slug "_debug". |
| Handlers.DebugIndexReachable | handlers.go:200 | With "/_debug" tried first, that path reaches the debug page without override. |
| Handlers.RouteAgreesElsewhere | handlers.go:188-202 | The corrected order routes every other path as the registered one. |
| Handlers.StylesheetLinkRoutes | handlers.go:197 | A valid theme's stylesheet URL reaches the CSS handler for that theme. |
| Handlers.DebugLinkSelectsTheme | handlers.go:144-146 | Each debug link reaches the debug page with its theme, under both the registered and the corrected route order, and that page shows that theme. |
| Glog.Blog.constructor | glog.go:35-40 | The configuration as given, with no posts. |
| Glog.Blog.Initialize | glog.go:42-45 | Always returns no error. |
| Glog.ParsePost | glog.go:48-80 | The parse result equals LegacyParseSpec: read, first-heading title, stat, whole-text conversion. |
| Glog.LegacyParsedPost | glog.go:54-79 | The title is the first heading or the default. The whole raw text is converted and kept, and the date is always the mod time. |
| Glog.LegacyFailures | glog.go:49-72 | Read, stat and conversion failures are returned as is. A stat failure fails even a dated file. |
| Glog.LegacyAgreesOnPlainFiles | glog.go:48-80 | On files with no heading and no date line, each parser with its own converter: both give the same read and stat errors, both convert the raw text, and when both succeed they agree on title ("Untitled Post"), raw text and date (the mod time). |
| Glog.LegacyAgreesWithSameConversion | glog.go:48-80 | On such files, when the two conversions of the raw text agree, the two parse results are equal. |
| Glog.LegacyAgreesOnTitle | glog.go:55-61 | When both parsers succeed, they agree on the title and the raw text. |

## Left out

- HTTP plumbing is not modelled. This covers the `ResponseWriter`, headers other than the stylesheet handlers' content type and cache control, `mux.Vars`, and installing routes on the router. The route order is modelled as `Handlers.RouteAsRegistered`.
- `handleListPosts` (handlers.go:31-40) is not modelled. It only executes the list template, and templates are not part of this model.
- templates.go is not modelled beyond the data a post page is rendered with. Template execution is the `Template` input, and building the templates is a `Result<Template>` input.
- The fixed HTML text of the debug page (handlers.go:109-140, handlers.go:148-155) is not modelled. The model keeps the stylesheet URL, the theme name and the link list it is built around.
- Markdown conversion by goldmark is the `Converter` input.
- Glog.LegacyAgreesOnPlainFiles: the two packages set goldmark up differently. parser.go:70-74 turns on automatic heading ids and glog.go:68 uses the plain default. So the model lets each parser have its own converter and proves equal page content only when the two conversions agree (`Glog.LegacyAgreesWithSameConversion`).
- File reads, `os.Stat` and `filepath.Walk` are inputs. The model does not check that walk entries arrive in lexical order, or that the parse result of an entry is `parsePost` of its path.
- On failure, Go returns an empty `Post` next to the error. The model returns only the error, because callers discard the post.
- `New` (blog.go:17-32) calls `newTemplateRenderer()` without the two arguments templates.go:12 requires, so the renderer construction and its error path are not modelled. `Index.Blog.constructor` takes the renderer as a parameter.
- `Initialize` (blog.go:35-37) only calls `initialize`, so one method models both.
- `time.Time` is an integer instant. Time zones, monotonic readings and the display format are not modelled.
- Text is Unicode characters rather than UTF-8 bytes. Invalid UTF-8 is not modelled.
- Concurrency is not modelled; the code has none.
- Themes.ListAvailableThemes: returns the registry's value. It does not model that Go hands out the package's slice itself, so a caller could change the registry through it.
- glog.go's `RenderPost` (glog.go:83-130) is not modelled, because it is templating.
- glog.go's `PostHandler` (glog.go:133-150) is not modelled: it is an HTTP wrapper around `ParsePost` and `RenderPost`.
- glog.go's empty `RegisterHandlers` (glog.go:153-154) is not modelled.

## Findings

| source | as written | input that shows it | evidently intended | confidence | as-written member | corrected member |
|---|---|---|---|---|---|---|
| handlers.go:194-200 | "/{slug}" is added before "/_debug". The router tries routes in the order they were added. A `{slug}` variable matches any non-empty run without '/', so it matches "_debug". | GET prefix + "/_debug" | The debug page for the current theme | not executed; follows gorilla/mux's first-match route order and default variable pattern | Handlers.RouteAsRegistered (Handlers.DebugIndexShadowed) | Handlers.Route (Handlers.DebugIndexReachable) |
