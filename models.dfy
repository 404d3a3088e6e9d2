/** The records of the content module: a post, the configuration and its
    defaults, and the part of the template renderer the handlers consult. */
module Models {
  import opened Dates

  /** One article. `content` is the HTML the markdown converter produced. */
  datatype Post = Post(
    title: string,
    content: string,
    rawContent: string,
    publishDate: Instant,
    slug: string)

  /** The value of a configuration record. */
  datatype ConfigValue = ConfigValue(
    contentDir: string,
    urlPrefix: string,
    defaultAuthor: string,
    pageSize: int,
    theme: string)

  const DefaultContentDir := "content/posts"
  const DefaultURLPrefix := "/blog"
  const DefaultPageSize := 10
  const DefaultTheme := "default"

  /** The configuration after `setDefaults`: each of the four defaulted fields
      is non-empty, and the author is the caller's. */
  function WithDefaults(c: ConfigValue): (r: ConfigValue)
    ensures r.contentDir != "" && r.urlPrefix != "" && r.pageSize != 0 && r.theme != ""
    ensures r.defaultAuthor == c.defaultAuthor
  {
    ConfigValue(
      if c.contentDir == "" then DefaultContentDir else c.contentDir,
      if c.urlPrefix == "" then DefaultURLPrefix else c.urlPrefix,
      c.defaultAuthor,
      if c.pageSize == 0 then DefaultPageSize else c.pageSize,
      if c.theme == "" then DefaultTheme else c.theme)
  }

  /** Fields the caller set survive, an unknown theme name and a negative page
      size included; empty ones take exactly the defaults `setDefaults` assigns. */
  lemma WithDefaultsKeepsSetFields(c: ConfigValue)
    ensures var r := WithDefaults(c);
      && (c.contentDir != "" ==> r.contentDir == c.contentDir)
      && (c.contentDir == "" ==> r.contentDir == "content/posts")
      && (c.urlPrefix != "" ==> r.urlPrefix == c.urlPrefix)
      && (c.urlPrefix == "" ==> r.urlPrefix == "/blog")
      && (c.pageSize != 0 ==> r.pageSize == c.pageSize)
      && (c.pageSize == 0 ==> r.pageSize == 10)
      && (c.theme != "" ==> r.theme == c.theme)
      && (c.theme == "" ==> r.theme == "default")
  {
  }

  /** Applying the defaults twice is applying them once. */
  lemma WithDefaultsIdempotent(c: ConfigValue)
    ensures WithDefaults(WithDefaults(c)) == WithDefaults(c)
  {
  }

  /** A configuration record whose fields `setDefaults` updates in place. */
  class Config {
    var contentDir: string
    var urlPrefix: string
    var defaultAuthor: string
    var pageSize: int
    var theme: string

    function Value(): ConfigValue
      reads this
    {
      ConfigValue(contentDir, urlPrefix, defaultAuthor, pageSize, theme)
    }

    constructor (v: ConfigValue)
      ensures Value() == v
    {
      contentDir, urlPrefix, defaultAuthor, pageSize, theme :=
        v.contentDir, v.urlPrefix, v.defaultAuthor, v.pageSize, v.theme;
    }

    /** Fills each empty field with its default. */
    method SetDefaults()
      modifies this
      ensures Value() == WithDefaults(old(Value()))
    {
      if contentDir == "" {
        contentDir := DefaultContentDir;
      }
      if urlPrefix == "" {
        urlPrefix := DefaultURLPrefix;
      }
      if pageSize == 0 {
        pageSize := DefaultPageSize;
      }
      if theme == "" {
        theme := DefaultTheme;
      }
    }
  }

  /** What the handlers read of the template renderer: the theme it renders
      with. Templates themselves are not part of this model. */
  datatype Renderer = Renderer(theme: string, urlPrefix: string)
}
