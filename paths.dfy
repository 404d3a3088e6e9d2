/** The slash-separated path helpers of Go's `path/filepath` on a Unix host,
    and the slug the content index derives from a file path. */
module Paths {
  import opened Text

  /** Drops every trailing '/'. */
  function StripTrailingSlashes(p: string): (r: string)
    ensures |r| <= |p| && r == p[..|r|]
    ensures |r| > 0 ==> r[|r| - 1] != '/'
    ensures forall k :: |r| <= k < |p| ==> p[k] == '/'
  {
    if |p| > 0 && p[|p| - 1] == '/' then StripTrailingSlashes(p[..|p| - 1]) else p
  }

  /** The text after the last '/'. */
  function LastElement(p: string): (r: string)
    ensures '/' !in r
    ensures |r| <= |p| && r == p[|p| - |r|..]
    ensures |r| < |p| ==> p[|p| - |r| - 1] == '/'
  {
    if |p| == 0 || p[|p| - 1] == '/' then "" else LastElement(p[..|p| - 1]) + [p[|p| - 1]]
  }

  /** filepath.Base: "." for the empty path, "/" for a path of slashes only,
      otherwise the last element once trailing slashes are dropped. */
  function Base(p: string): (r: string)
    ensures r != ""
    ensures p == "" ==> r == "."
    ensures r == "/" <==> p != "" && forall k :: 0 <= k < |p| ==> p[k] == '/'
    ensures var q := StripTrailingSlashes(p);
      p != "" && r != "/" ==> '/' !in r && HasSuffix(q, r) && (|r| < |q| ==> q[|q| - |r| - 1] == '/')
  {
    if p == "" then "."
    else
      var e := LastElement(StripTrailingSlashes(p));
      if e == "" then "/" else e
  }

  /** filepath.Ext: the suffix from the last '.' of the last element, or "". */
  function Ext(p: string): (r: string)
    ensures |r| <= |p| && r == p[|p| - |r|..]
    ensures r != "" ==> r[0] == '.'
    ensures '/' !in r
    ensures r != "" ==> '.' !in r[1..]
    ensures r == "" ==> '.' !in LastElement(p)
  {
    if |p| == 0 || p[|p| - 1] == '/' then ""
    else if p[|p| - 1] == '.' then "."
    else
      var e := Ext(p[..|p| - 1]);
      if e == "" then "" else e + [p[|p| - 1]]
  }

  /** The slug of a content file: its base name without its extension. */
  function Slug(path: string): (r: string)
    ensures r + Ext(Base(path)) == Base(path)
  {
    var name := Base(path);
    StemAndExt(name);
    TrimSuffix(name, Ext(name))
  }

  lemma StemAndExt(name: string)
    ensures TrimSuffix(name, Ext(name)) + Ext(name) == name
  {
    assert HasSuffix(name, Ext(name));
  }

  lemma {:induction false} LastElementAppend(p: string, tail: string)
    requires '/' !in tail
    ensures LastElement(p + tail) == LastElement(p) + tail
    decreases |tail|
  {
    if |tail| > 0 {
      var q := p + tail;
      var t0 := tail[..|tail| - 1];
      assert q[..|q| - 1] == p + t0;
      LastElementAppend(p, t0);
      assert t0 + [tail[|tail| - 1]] == tail;
    } else {
      assert p + tail == p;
    }
  }

  lemma ExtOfMarkdownName(stem: string)
    ensures Ext(stem + ".md") == ".md"
  {
    var name := stem + ".md";
    assert name[..|name| - 1] == stem + ".m";
    assert (stem + ".m")[..|stem| + 1] == stem + ".";
    assert Ext(stem + ".") == ".";
    assert Ext(stem + ".m") == ".m";
  }

  /** For every path the walk accepts (one ending in ".md") the slug is the
      base name minus ".md", contains no separator, and ends the path. */
  lemma SlugOfMarkdownPath(path: string)
    requires HasSuffix(path, ".md")
    ensures Slug(path) + ".md" == Base(path)
    ensures '/' !in Slug(path)
    ensures HasSuffix(path, Slug(path) + ".md")
  {
    var head := path[..|path| - 3];
    assert path == head + ".md";
    assert StripTrailingSlashes(path) == path;
    LastElementAppend(head, ".md");
    var stem := LastElement(head);
    assert Base(path) == stem + ".md";
    ExtOfMarkdownName(stem);
    assert Slug(path) == stem;
  }
}
