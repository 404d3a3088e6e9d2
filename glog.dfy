/** The earlier, self-contained package: posts without slugs, a title taken
    from the first heading, the modification time as the date, and the whole
    file converted. */
module Glog {
  import opened Common
  import opened Text
  import opened Dates
  import Models
  import opened Parser

  /** A post of the earlier package: no slug. */
  datatype Post = Post(title: string, content: string, rawContent: string, publishDate: Instant)

  /** Its configuration: no theme. */
  datatype ConfigValue = ConfigValue(contentDir: string, urlPrefix: string, defaultAuthor: string, pageSize: int)

  class Blog {
    var config: ConfigValue
    var posts: seq<Post>

    /** `New`: always succeeds, keeps the configuration as given (no
        defaults are applied) and starts with no posts. */
    constructor (config: ConfigValue)
      ensures this.config == config && posts == []
    {
      this.config := config;
      posts := [];
    }

    /** `Initialize` does nothing yet and reports no error. */
    method Initialize() returns (err: Option<Error>)
      ensures err == None
    {
      return None;
    }
  }

  /** What the earlier `ParsePost` returns for a file. */
  function LegacyParseSpec(file: File, convert: Converter): Result<Post> {
    match file.content
    case Err(e) => Err(e)
    case Ok(raw) =>
      match file.modTime
      case Err(e) => Err(e)
      case Ok(modTime) =>
        match convert(raw)
        case Err(e) => Err(e)
        case Ok(html) => Ok(Post(Title(Split(raw)), html, raw, modTime))
  }

  /** The earlier `ParsePost`: read, take the first heading as the title,
      stat, convert the whole text. */
  method ParsePost(file: File, convert: Converter) returns (r: Result<Post>)
    ensures r == LegacyParseSpec(file, convert)
  {
    if file.content.Err? {
      return Err(file.content.error);
    }
    var raw := file.content.value;
    var lines := Split(raw);
    var title := UntitledPost;
    var i := 0;
    while i < |lines|
      invariant 0 <= i <= |lines|
      invariant FirstMatch(lines[..i], IsHeading) < 0 && title == UntitledPost
    {
      FirstMatchStep(lines, i, IsHeading);
      if HasPrefix(lines[i], HeadingMarker) {
        title := TrimPrefix(lines[i], HeadingMarker);
        break;
      }
      i := i + 1;
    }
    if i == |lines| {
      FirstMatchNone(lines, IsHeading);
    }
    if file.modTime.Err? {
      return Err(file.modTime.error);
    }
    var html := convert(raw);
    if html.Err? {
      return Err(html.error);
    }
    return Ok(Post(title, html.value, raw, file.modTime.value));
  }

  /** A successful parse: the first heading (or the default) as the title,
      the whole unmodified text both converted and kept, and the
      modification time as the date whatever the text says. */
  lemma LegacyParsedPost(file: File, convert: Converter)
    requires LegacyParseSpec(file, convert).Ok?
    ensures file.content.Ok? && file.modTime.Ok?
    ensures var p := LegacyParseSpec(file, convert).value;
      && p.title == Title(Split(file.content.value))
      && p.rawContent == file.content.value
      && convert(file.content.value) == Ok(p.content)
      && p.publishDate == file.modTime.value
  {
  }

  /** Every failure is returned as is: read, then stat, then conversion. A
      stat failure fails the parse even when the text begins with a date. */
  lemma LegacyFailures(file: File, convert: Converter)
    ensures file.content.Err? ==> LegacyParseSpec(file, convert) == Err(file.content.error)
    ensures file.content.Ok? && file.modTime.Err? ==> LegacyParseSpec(file, convert) == Err(file.modTime.error)
    ensures file.content.Ok? && file.modTime.Ok? && convert(file.content.value).Err? ==>
      LegacyParseSpec(file, convert) == Err(convert(file.content.value).error)
  {
  }

  /** The post of the earlier package as a post of the current one. */
  function Upgrade(r: Result<Post>): Result<Models.Post> {
    match r
    case Err(e) => Err(e)
    case Ok(p) => Ok(Models.Post(p.title, p.content, p.rawContent, p.publishDate, ""))
  }

  /** On a file with neither a heading nor a date line among its first three
      lines the two parsers, each with its own converter, fail alike on a
      read or stat failure, hand their converters the same text, and when
      both succeed agree on the title, the raw text and the date. */
  lemma LegacyAgreesOnPlainFiles(file: File, current: Converter, legacy: Converter)
    requires file.content.Ok? ==>
      TitleIndex(Split(file.content.value)) < 0 && DateIndex(Split(file.content.value)) < 0
    ensures file.content.Err? ==>
      ParsePostSpec(file, current) == Err(file.content.error) && LegacyParseSpec(file, legacy) == Err(file.content.error)
    ensures file.content.Ok? && file.modTime.Err? ==>
      ParsePostSpec(file, current) == Err(file.modTime.error) && LegacyParseSpec(file, legacy) == Err(file.modTime.error)
    ensures file.content.Ok? && file.modTime.Ok? ==>
      && (ParsePostSpec(file, current).Ok? <==> current(file.content.value).Ok?)
      && (LegacyParseSpec(file, legacy).Ok? <==> legacy(file.content.value).Ok?)
    ensures ParsePostSpec(file, current).Ok? && LegacyParseSpec(file, legacy).Ok? ==>
      var p, q := ParsePostSpec(file, current).value, LegacyParseSpec(file, legacy).value;
      && p.title == q.title == UntitledPost
      && p.rawContent == q.rawContent
      && p.publishDate == q.publishDate == file.modTime.value
      && current(file.content.value) == Ok(p.content)
  {
    if file.content.Ok? {
      PlainFileBodyIsRaw(file.content.value);
    }
  }

  /** With one conversion for both (the same text converted to the same page)
      the two parsers agree on plain files, errors included. */
  lemma LegacyAgreesWithSameConversion(file: File, current: Converter, legacy: Converter)
    requires file.content.Ok?
    requires TitleIndex(Split(file.content.value)) < 0 && DateIndex(Split(file.content.value)) < 0
    requires current(file.content.value) == legacy(file.content.value)
    ensures ParsePostSpec(file, current) == Upgrade(LegacyParseSpec(file, legacy))
  {
    PlainFileBodyIsRaw(file.content.value);
  }

  /** Whenever both parses succeed they agree on the title and the raw text. */
  lemma LegacyAgreesOnTitle(file: File, c1: Converter, c2: Converter)
    requires ParsePostSpec(file, c1).Ok? && LegacyParseSpec(file, c2).Ok?
    ensures ParsePostSpec(file, c1).value.title == LegacyParseSpec(file, c2).value.title
    ensures ParsePostSpec(file, c1).value.rawContent == LegacyParseSpec(file, c2).value.rawContent
  {
  }
}
