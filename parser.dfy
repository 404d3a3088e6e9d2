/** Post front-matter extraction: the title line, the date line, the body that
    goes to the markdown converter, and the post record. */
module Parser {
  import opened Common
  import opened Text
  import opened Dates
  import opened Models

  /** What the file system says about one file: its text (or the read error)
      and its modification time (or the stat error). */
  datatype File = File(content: Result<string>, modTime: Result<Instant>)

  /** A markdown converter: HTML for the text, or a conversion error. */
  type Converter = string -> Result<string>

  const UntitledPost := "Untitled Post"
  const HeadingMarker := "# "

  predicate IsHeading(line: string) {
    HasPrefix(line, HeadingMarker)
  }

  /** Index of the title line, -1 when no line is a heading. */
  function TitleIndex(lines: seq<string>): int {
    FirstMatch(lines, IsHeading)
  }

  /** The number of leading lines searched for a date. */
  function DateWindow(lines: seq<string>): nat {
    if |lines| < 3 then |lines| else 3
  }

  /** Index of the date line, -1 when none of the first three lines is one. */
  function DateIndex(lines: seq<string>): int {
    FirstMatch(lines[..DateWindow(lines)], IsDateLine)
  }

  /** The title: the first heading line without its marker, or the default. */
  function Title(lines: seq<string>): string {
    var t := TitleIndex(lines);
    if t >= 0 then TrimPrefix(lines[t], HeadingMarker) else UntitledPost
  }

  /** The instant of the date line, or Go's zero time when there is none. */
  function LineDate(lines: seq<string>): Instant {
    var d := DateIndex(lines);
    if d >= 0 then DateLineInstant(lines[d]) else ZeroInstant
  }

  /** `lines` in order without the lines at indices `t` and `d`. */
  function Without(lines: seq<string>, t: int, d: int): seq<string> {
    if |lines| == 0 then []
    else
      var k := |lines| - 1;
      Without(lines[..k], t, d) + (if k != t && k != d then [lines[k]] else [])
  }

  /** The text handed to the markdown converter. */
  function Body(raw: string): string {
    var lines := Split(raw);
    Join(Without(lines, TitleIndex(lines), DateIndex(lines)))
  }

  /** What `parsePost` returns for a file. */
  function ParsePostSpec(file: File, convert: Converter): Result<Post> {
    match file.content
    case Err(e) => Err(e)
    case Ok(raw) =>
      var lines := Split(raw);
      var parsed := LineDate(lines);
      if parsed == ZeroInstant && file.modTime.Err? then Err(file.modTime.error)
      else
        var date := if parsed == ZeroInstant then file.modTime.value else parsed;
        match convert(Body(raw))
        case Err(e) => Err(e)
        case Ok(html) => Ok(Post(Title(lines), html, raw, date, ""))
  }

  /** The title scan of `parsePost`: the first heading line, stopping there. */
  method FindTitle(lines: seq<string>) returns (title: string, titleLine: int)
    ensures titleLine == TitleIndex(lines) && title == Title(lines)
  {
    title := UntitledPost;
    titleLine := -1;
    var i := 0;
    while i < |lines|
      invariant 0 <= i <= |lines| && titleLine == -1 && title == UntitledPost
      invariant forall j :: 0 <= j < i ==> !IsHeading(lines[j])
    {
      if IsHeading(lines[i]) {
        title := TrimPrefix(lines[i], HeadingMarker);
        titleLine := i;
        break;
      }
      i := i + 1;
    }
  }

  /** The date scan of `parsePost` over the first three lines. */
  method FindDate(lines: seq<string>) returns (publishDate: Instant, dateLine: int)
    ensures dateLine == DateIndex(lines)
    ensures publishDate == LineDate(lines)
  {
    publishDate := ZeroInstant;
    dateLine := -1;
    var window := DateWindow(lines);
    ghost var head := lines[..window];
    var i := 0;
    while i < window
      invariant 0 <= i <= window && dateLine == -1 && publishDate == ZeroInstant
      invariant FirstMatch(head[..i], IsDateLine) < 0
    {
      assert head[i] == lines[i];
      FirstMatchStep(head, i, IsDateLine);
      // the pattern test, then the calendar parse of the trimmed line
      if IsDateLine(lines[i]) {
        publishDate := DateLineInstant(lines[i]);
        dateLine := i;
        break;
      }
      i := i + 1;
    }
    if dateLine < 0 {
      FirstMatchNone(head, IsDateLine);
    }
  }

  /** The filter loop of `parsePost`: every line but the two marker lines. */
  method RemoveLines(lines: seq<string>, titleLine: int, dateLine: int) returns (contentLines: seq<string>)
    ensures contentLines == Without(lines, titleLine, dateLine)
  {
    contentLines := [];
    var i := 0;
    while i < |lines|
      invariant 0 <= i <= |lines|
      invariant contentLines == Without(lines[..i], titleLine, dateLine)
    {
      assert lines[..i + 1][..i] == lines[..i];
      if i != dateLine && i != titleLine {
        contentLines := contentLines + [lines[i]];
      }
      i := i + 1;
    }
    assert lines[..|lines|] == lines;
  }

  /** Reads the front matter of one file and converts the rest. */
  method ParsePost(file: File, convert: Converter) returns (r: Result<Post>)
    ensures r == ParsePostSpec(file, convert)
  {
    if file.content.Err? {
      return Err(file.content.error);
    }
    var raw := file.content.value;
    var lines := Split(raw);
    var title, titleLine := FindTitle(lines);
    var publishDate, dateLine := FindDate(lines);
    if publishDate == ZeroInstant {
      if file.modTime.Err? {
        return Err(file.modTime.error);
      }
      publishDate := file.modTime.value;
    }
    var contentLines := RemoveLines(lines, titleLine, dateLine);
    var html := convert(Join(contentLines));
    if html.Err? {
      return Err(html.error);
    }
    return Ok(Post(title, html.value, raw, publishDate, ""));
  }

  // ---- Properties of the line filter ----

  /** Where line `i` lands in the body: after the kept lines before it. */
  function Shifted(i: int, t: int, d: int): int {
    i - (if 0 <= t < i then 1 else 0) - (if 0 <= d < i && d != t then 1 else 0)
  }

  /** The number of marker indices that fall inside `n` lines. */
  function Markers(n: int, t: int, d: int): int {
    (if 0 <= t < n then 1 else 0) + (if 0 <= d < n && d != t then 1 else 0)
  }

  /** The body is the lines in their order with exactly lines `t` and `d`
      removed: every other line appears, at its index less the markers
      before it. */
  lemma {:induction false} WithoutKeepsOthers(lines: seq<string>, t: int, d: int)
    ensures |Without(lines, t, d)| == |lines| - Markers(|lines|, t, d)
    ensures forall i :: 0 <= i < |lines| && i != t && i != d ==>
      0 <= Shifted(i, t, d) < |Without(lines, t, d)| && Without(lines, t, d)[Shifted(i, t, d)] == lines[i]
  {
    if |lines| > 0 {
      var k := |lines| - 1;
      WithoutKeepsOthers(lines[..k], t, d);
      var w := Without(lines[..k], t, d);
      assert forall i :: 0 <= i < k ==> lines[..k][i] == lines[i];
      assert Without(lines, t, d) == w + (if k != t && k != d then [lines[k]] else []);
    }
  }

  /** Removing lines never invents one: each line of the body occurs in the
      file at least as often (the order is kept by `WithoutKeepsOthers`). */
  lemma {:induction false} WithoutDrawsFromLines(lines: seq<string>, t: int, d: int)
    ensures multiset(Without(lines, t, d)) <= multiset(lines)
  {
    if |lines| > 0 {
      var k := |lines| - 1;
      WithoutDrawsFromLines(lines[..k], t, d);
      assert lines == lines[..k] + [lines[k]];
    }
  }

  /** Without markers nothing is removed. */
  lemma {:induction false} WithoutNothing(lines: seq<string>)
    ensures Without(lines, -1, -1) == lines
  {
    if |lines| > 0 {
      var k := |lines| - 1;
      WithoutNothing(lines[..k]);
      assert lines == lines[..k] + [lines[k]];
    }
  }

  // ---- Properties of the parse ----

  /** A heading line never qualifies as a date line, so the two markers never
      remove the same line. */
  lemma TitleAndDateDiffer(lines: seq<string>)
    ensures TitleIndex(lines) >= 0 && DateIndex(lines) >= 0 ==> TitleIndex(lines) != DateIndex(lines)
  {
    var t, d := TitleIndex(lines), DateIndex(lines);
    if t >= 0 && d >= 0 {
      var head := lines[..DateWindow(lines)];
      assert IsDateLine(head[d]) && head[d] == lines[d];
      DateLineStartsWithDigit(lines[d]);
      HeadingStartsWithHash(lines[t]);
    }
  }

  lemma HeadingStartsWithHash(line: string)
    requires IsHeading(line)
    ensures line[0] == '#'
  {
  }

  /** The title is the first line, at any index, that starts with "# ", with
      exactly that marker removed (trailing blanks and '\r' stay); with no such
      line it is "Untitled Post". */
  lemma TitleIsFirstHeading(lines: seq<string>)
    ensures var t := TitleIndex(lines);
      && (t >= 0 ==> HeadingMarker + Title(lines) == lines[t]
                     && forall i :: 0 <= i < t ==> !IsHeading(lines[i]))
      && (t < 0 ==> Title(lines) == "Untitled Post" && forall i :: 0 <= i < |lines| ==> !IsHeading(lines[i]))
  {
  }

  /** Only lines among the first three are date lines, and the taken one is
      the first of them that carries a valid date. */
  lemma DateIsFirstDateLine(lines: seq<string>)
    ensures var d := DateIndex(lines);
      && -1 <= d < 3 && d < |lines|
      && (d >= 0 ==> IsDateLine(lines[d]) && LineDate(lines) == DateLineInstant(lines[d]))
      && forall i :: 0 <= i < |lines| && i < 3 && (d < 0 || i < d) ==> !IsDateLine(lines[i])
  {
    var w := lines[..DateWindow(lines)];
    assert forall i :: 0 <= i < |w| ==> w[i] == lines[i];
  }

  /** A read failure is returned as is. */
  lemma ReadFailurePropagates(file: File, convert: Converter)
    requires file.content.Err?
    ensures ParsePostSpec(file, convert) == Err(file.content.error)
  {
  }

  /** A successful parse keeps the unmodified file text, the title, and a date
      that is the date line's unless that is missing or the zero date. */
  lemma ParsedPost(file: File, convert: Converter)
    requires ParsePostSpec(file, convert).Ok?
    ensures file.content.Ok?
    ensures var p := ParsePostSpec(file, convert).value;
      var lines := Split(file.content.value);
      && p.rawContent == file.content.value
      && p.title == Title(lines)
      && convert(Body(p.rawContent)) == Ok(p.content)
      && p.slug == ""
      && (LineDate(lines) != ZeroInstant ==> p.publishDate == LineDate(lines))
      && (LineDate(lines) == ZeroInstant ==> file.modTime == Ok(p.publishDate))
  {
  }

  /** The modification time is consulted only when no non-zero date was taken:
      with a dated file, stat never matters, not even its failure. */
  lemma StatOnlyWhenUndated(content: string, m1: Result<Instant>, m2: Result<Instant>, convert: Converter)
    requires LineDate(Split(content)) != ZeroInstant
    ensures ParsePostSpec(File(Ok(content), m1), convert) == ParsePostSpec(File(Ok(content), m2), convert)
  {
  }

  /** A date line reading 0001-01-01 is Go's zero time: the date still comes
      from the modification time, yet that line is still removed from the
      body: one line fewer than with the date line left in. */
  lemma ZeroDateLine(lines: seq<string>)
    requires DateIndex(lines) >= 0
    requires ParseDate(TrimSpace(lines[DateIndex(lines)])) == Some(Date(1, 1, 1))
    ensures LineDate(lines) == ZeroInstant
    ensures |Without(lines, TitleIndex(lines), DateIndex(lines))| == |Without(lines, TitleIndex(lines), -1)| - 1
  {
    var t, d := TitleIndex(lines), DateIndex(lines);
    ZeroMidnight(Date(1, 1, 1));
    assert LineDate(lines) == Midnight(Date(1, 1, 1));
    TitleAndDateDiffer(lines);
    WithoutKeepsOthers(lines, t, d);
    WithoutKeepsOthers(lines, t, -1);
    assert 0 <= d < |lines| && d != t;
  }

  /** With neither a title line nor a date line the converter gets the file
      text unchanged: split and join undo each other. */
  lemma PlainFileBodyIsRaw(raw: string)
    requires TitleIndex(Split(raw)) < 0 && DateIndex(Split(raw)) < 0
    ensures Body(raw) == raw
  {
    var lines := Split(raw);
    WithoutNothing(lines);
    JoinSplit(raw);
  }

  /** A stat failure is returned as is when the text gives no usable date,
      a 0001-01-01 date line included. */
  lemma StatFailurePropagates(file: File, convert: Converter)
    requires file.content.Ok? && LineDate(Split(file.content.value)) == ZeroInstant && file.modTime.Err?
    ensures ParsePostSpec(file, convert) == Err(file.modTime.error)
  {
  }

  /** A conversion failure is returned as is. */
  lemma ConvertFailurePropagates(file: File, convert: Converter)
    requires file.content.Ok?
    requires convert(Body(file.content.value)).Err?
    requires LineDate(Split(file.content.value)) != ZeroInstant || file.modTime.Ok?
    ensures ParsePostSpec(file, convert) == Err(convert(Body(file.content.value)).error)
  {
  }
}
