/** The content index: the walk over the content directory, the slug of each
    post, the newest-first order, and the copy handed to callers. */
module Index {
  import opened Common
  import opened Text
  import opened Dates
  import opened Paths
  import opened Models

  /** One call of the walk callback: the visited path, the error the walk
      reports for it (if any), whether it is a directory, and what parsing
      the file yields. */
  datatype Entry = Entry(path: string, walkErr: Option<Error>, isDir: bool, parsed: Result<Post>)

  /** What the callback does with one entry. */
  datatype Step = Skip | Add(post: Post) | Fail(error: Error)

  /** Entries the callback hands to the parser: files whose path ends in ".md". */
  predicate IsMarkdownFile(e: Entry) {
    !e.isDir && HasSuffix(e.path, ".md")
  }

  /** The callback: stop on a walk error, skip directories and other files,
      stop on a parse error, otherwise add the post under its slug. */
  function Visit(e: Entry): (r: Step)
    ensures r.Fail? ==>
      if e.walkErr.Some? then r.error == e.walkErr.value else e.parsed.Err? && r.error == e.parsed.error
    ensures r.Add? ==> IsMarkdownFile(e) && e.parsed.Ok? && r.post == e.parsed.value.(slug := r.post.slug)
  {
    if e.walkErr.Some? then Fail(e.walkErr.value)
    else if !IsMarkdownFile(e) then Skip
    else if e.parsed.Err? then Fail(e.parsed.error)
    else Add(e.parsed.value.(slug := Slug(e.path)))
  }

  /** The callback skips exactly the directories and non-markdown files, fails
      exactly on a walk or parse error, and otherwise adds the parsed post with
      the file's base name minus ".md" as its slug. */
  lemma VisitCases(e: Entry)
    ensures Visit(e).Skip? <==> e.walkErr.None? && (e.isDir || !HasSuffix(e.path, ".md"))
    ensures Visit(e).Fail? <==> e.walkErr.Some? || (IsMarkdownFile(e) && e.parsed.Err?)
    ensures Visit(e).Add? ==>
      && Visit(e).post.slug + ".md" == Base(e.path)
      && '/' !in Visit(e).post.slug
  {
    if Visit(e).Add? {
      SlugOfMarkdownPath(e.path);
    }
  }

  /** The state of the walk after some entries: the posts appended so far and
      the error that stopped it, if one did. */
  datatype Walk = Walk(posts: seq<Post>, failure: Option<Error>)

  /** One callback step of the walk: nothing happens once it has stopped. */
  function Extend(w: Walk, e: Entry): Walk {
    if w.failure.Some? then w
    else match Visit(e)
      case Skip => w
      case Fail(err) => Walk(w.posts, Some(err))
      case Add(p) => Walk(w.posts + [p], None)
  }

  /** The walk over `entries`, stopping at the first failing entry. */
  function WalkOf(entries: seq<Entry>): (r: Walk)
    ensures |r.posts| <= |entries|
  {
    if |entries| == 0 then Walk([], None)
    else Extend(WalkOf(entries[..|entries| - 1]), entries[|entries| - 1])
  }

  /** One step of a running walk, by the callback's own tests. */
  lemma ExtendCases(posts: seq<Post>, e: Entry)
    ensures var w := Extend(Walk(posts, None), e);
      if e.walkErr.Some? then w == Walk(posts, e.walkErr)
      else if !IsMarkdownFile(e) then w == Walk(posts, None)
      else if e.parsed.Err? then w == Walk(posts, Some(e.parsed.error))
      else w == Walk(posts + [e.parsed.value.(slug := Slug(e.path))], None)
  {
    if e.walkErr.Some? {
      assert Visit(e) == Fail(e.walkErr.value);
    } else if !IsMarkdownFile(e) {
      assert Visit(e) == Skip;
    } else if e.parsed.Err? {
      assert Visit(e) == Fail(e.parsed.error);
    } else {
      assert Visit(e) == Add(e.parsed.value.(slug := Slug(e.path)));
    }
  }

  lemma WalkOfAppend(entries: seq<Entry>, e: Entry)
    ensures WalkOf(entries + [e]) == Extend(WalkOf(entries), e)
  {
    assert (entries + [e])[..|entries|] == entries;
  }

  lemma WalkOfPrefix(entries: seq<Entry>, i: nat)
    requires i < |entries|
    ensures WalkOf(entries[..i + 1]) == Extend(WalkOf(entries[..i]), entries[i])
  {
    assert entries[..i + 1][..i] == entries[..i];
  }

  /** Once the walk has stopped, later entries change nothing. */
  lemma {:induction false} WalkStopsAtFailure(entries: seq<Entry>, k: nat)
    requires k <= |entries| && WalkOf(entries[..k]).failure.Some?
    ensures WalkOf(entries) == WalkOf(entries[..k])
    decreases |entries| - k
  {
    if k < |entries| {
      var pre := entries[..k + 1];
      assert pre[..k] == entries[..k];
      assert WalkOf(pre) == WalkOf(entries[..k]);
      WalkStopsAtFailure(entries, k + 1);
    } else {
      assert entries[..k] == entries;
    }
  }

  /** An entry the callback skips can be taken out of the walk anywhere
      without changing its outcome. */
  lemma {:induction false} WalkIgnoresSkipped(a: seq<Entry>, e: Entry, b: seq<Entry>)
    requires Visit(e).Skip?
    ensures WalkOf(a + [e] + b) == WalkOf(a + b)
    decreases |b|
  {
    if |b| == 0 {
      assert a + [e] + b == a + [e] && a + b == a;
      WalkOfAppend(a, e);
    } else {
      var b0, y := b[..|b| - 1], b[|b| - 1];
      assert a + [e] + b == (a + [e] + b0) + [y];
      assert a + b == (a + b0) + [y];
      WalkOfAppend(a + [e] + b0, y);
      WalkOfAppend(a + b0, y);
      WalkIgnoresSkipped(a, e, b0);
    }
  }

  /** The posts the callback adds, in walk order, ignoring failures. */
  function Added(entries: seq<Entry>): seq<Post> {
    if |entries| == 0 then []
    else Collect(Added(entries[..|entries| - 1]), entries[|entries| - 1])
  }

  /** `posts` followed by the post the callback adds for `e`, if any. */
  function Collect(posts: seq<Post>, e: Entry): (r: seq<Post>)
    ensures Visit(e).Add? ==> r == posts + [Visit(e).post]
    ensures !Visit(e).Add? ==> r == posts
  {
    match Visit(e)
    case Add(p) => posts + [p]
    case _ => posts
  }

  /** The walk keeps every post the callback adds, once each and in order,
      up to the entry that stops it: a prefix of the added posts, and all of
      them when nothing fails. */
  lemma {:induction false} WalkPostsAreAdded(entries: seq<Entry>)
    ensures WalkOf(entries).posts <= Added(entries)
    ensures WalkOf(entries).failure.None? ==> WalkOf(entries).posts == Added(entries)
  {
    if |entries| > 0 {
      var n := |entries| - 1;
      var pre := entries[..n];
      WalkPostsAreAdded(pre);
      assert WalkOf(entries) == Extend(WalkOf(pre), entries[n]);
      assert Added(entries) == Collect(Added(pre), entries[n]);
      ExtendCollects(WalkOf(pre), Added(pre), entries[n]);
    }
  }

  /** One step keeps the walk's posts a prefix of the added posts, equal
      to them while the walk runs. */
  lemma ExtendCollects(w: Walk, added: seq<Post>, e: Entry)
    requires w.posts <= added && (w.failure.None? ==> w.posts == added)
    ensures Extend(w, e).posts <= Collect(added, e)
    ensures Extend(w, e).failure.None? ==> Extend(w, e).posts == Collect(added, e)
  {
    if w.failure.None? && Visit(e).Add? {
      assert Extend(w, e).posts == added + [Visit(e).post];
    }
  }

  lemma CollectKeeps(posts: seq<Post>, e: Entry, p: Post)
    requires p in posts
    ensures p in Collect(posts, e)
  {
  }

  lemma CollectAdds(posts: seq<Post>, e: Entry, p: Post)
    requires Visit(e) == Add(p)
    ensures p in Collect(posts, e)
  {
    assert Collect(posts, e)[|posts|] == p;
  }

  /** Each post the callback adds is in the added posts. */
  lemma {:induction false} AddedHoldsEach(entries: seq<Entry>, i: nat, p: Post)
    requires i < |entries| && Visit(entries[i]) == Add(p)
    ensures p in Added(entries)
  {
    var n := |entries| - 1;
    var pre := entries[..n];
    assert Added(entries) == Collect(Added(pre), entries[n]);
    if i == n {
      CollectAdds(Added(pre), entries[i], p);
    } else {
      assert pre[i] == entries[i];
      AddedHoldsEach(pre, i, p);
      CollectKeeps(Added(pre), entries[n], p);
    }
  }

  /** A walk that does not fail indexes every post the callback adds. */
  lemma WalkKeepsAdded(entries: seq<Entry>, i: nat)
    requires i < |entries| && WalkOf(entries).failure.None? && Visit(entries[i]).Add?
    ensures Visit(entries[i]).post in WalkOf(entries).posts
  {
    WalkPostsAreAdded(entries);
    AddedHoldsEach(entries, i, Visit(entries[i]).post);
  }

  /** Every indexed post is what the callback added for some entry: a
      markdown file of the walk, parsed, under its slug. */
  lemma {:induction false} WalkPostsComeFromEntries(entries: seq<Entry>)
    ensures forall k :: 0 <= k < |WalkOf(entries).posts| ==>
      exists i :: 0 <= i < |entries| && Visit(entries[i]) == Add(WalkOf(entries).posts[k])
  {
    if |entries| > 0 {
      var n := |entries| - 1;
      var pre := entries[..n];
      WalkPostsComeFromEntries(pre);
      var w := WalkOf(pre);
      var posts := WalkOf(entries).posts;
      assert WalkOf(entries) == Extend(w, entries[n]);
      forall k | 0 <= k < |posts|
        ensures exists i :: 0 <= i < |entries| && Visit(entries[i]) == Add(posts[k])
      {
        if k < |w.posts| {
          assert posts[k] == w.posts[k];
          var i :| 0 <= i < |pre| && Visit(pre[i]) == Add(w.posts[k]);
          assert entries[i] == pre[i];
        } else {
          assert w.failure.None? && Visit(entries[n]).Add?;
          assert posts == w.posts + [Visit(entries[n]).post];
          assert Visit(entries[n]) == Add(posts[k]);
        }
      }
      assert posts == WalkOf(entries).posts;
    } else {
      assert WalkOf(entries).posts == [];
    }
  }

  /** Newest first: no post is older than one after it. */
  predicate NewestFirst(posts: seq<Post>) {
    forall i, j :: 0 <= i < j < |posts| ==> posts[i].publishDate >= posts[j].publishDate
  }

  /** `s` with the posts at `i` and `j` exchanged. */
  function Swap(s: seq<Post>, i: nat, j: nat): (r: seq<Post>)
    requires i < |s| && j < |s|
    ensures |r| == |s| && multiset(r) == multiset(s)
    ensures r[i] == s[j] && r[j] == s[i]
    ensures forall k :: 0 <= k < |s| && k != i && k != j ==> r[k] == s[k]
  {
    s[i := s[j]][j := s[i]]
  }

  class Blog {
    var config: ConfigValue
    var posts: seq<Post>
    var renderer: Renderer

    /** `New`: the caller's configuration with defaults filled in, no posts. */
    constructor (config: ConfigValue, renderer: Renderer)
      ensures this.config == WithDefaults(config)
      ensures posts == []
      ensures this.renderer == renderer
    {
      var c := new Config(config);
      c.SetDefaults();
      this.config := c.Value();
      this.posts := [];
      this.renderer := renderer;
    }

    /** `initialize`: rebuilds the index from the walk. On success the index
        holds exactly the walked posts, newest first; on the first failure it
        returns that error and keeps the unsorted posts appended before it. */
    method Initialize(entries: seq<Entry>) returns (err: Option<Error>)
      modifies this`posts
      ensures err == WalkOf(entries).failure
      ensures err.Some? ==> posts == WalkOf(entries).posts
      ensures err.None? ==> multiset(posts) == multiset(WalkOf(entries).posts) && NewestFirst(posts)
    {
      posts := [];
      var i := 0;
      while i < |entries|
        invariant 0 <= i <= |entries|
        invariant WalkOf(entries[..i]) == Walk(posts, None)
      {
        WalkOfPrefix(entries, i);
        err := VisitEntry(entries[i]);
        if err.Some? {
          WalkStopsAtFailure(entries, i + 1);
          return;
        }
        i := i + 1;
      }
      assert entries[..|entries|] == entries;
      SortNewestFirst();
      return None;
    }

    /** The walk callback for one entry: the error that stops the walk, or
        nothing, having appended the entry's post when it is a markdown file. */
    method VisitEntry(e: Entry) returns (err: Option<Error>)
      modifies this`posts
      ensures Walk(posts, err) == Extend(Walk(old(posts), None), e)
    {
      ExtendCases(posts, e);
      if e.walkErr.Some? {
        return e.walkErr;
      }
      if !IsMarkdownFile(e) {
        return None;
      }
      if e.parsed.Err? {
        return Some(e.parsed.error);
      }
      var post := e.parsed.value.(slug := Slug(e.path));
      posts := posts + [post];
      return None;
    }

    /** `sort.Slice` by publish date, newest first. The order among posts
        with equal dates is not specified. */
    method SortNewestFirst()
      modifies this`posts
      ensures multiset(posts) == multiset(old(posts))
      ensures NewestFirst(posts)
    {
      var s := posts;
      var i := 0;
      while i < |s|
        invariant 0 <= i <= |s| && |s| == |posts| && multiset(s) == multiset(posts)
        invariant NewestFirst(s[..i])
      {
        var j := i;
        while j > 0 && s[j - 1].publishDate < s[j].publishDate
          invariant 0 <= j <= i && |s| == |posts| && multiset(s) == multiset(posts)
          invariant forall a, b :: 0 <= a < b <= i && a != j && b != j ==> s[a].publishDate >= s[b].publishDate
          invariant forall b :: j < b <= i ==> s[j].publishDate > s[b].publishDate
        {
          s := Swap(s, j - 1, j);
          j := j - 1;
        }
        i := i + 1;
      }
      assert s[..|s|] == s;
      posts := s;
    }

    /** `GetPosts`: a fresh array holding the posts in index order; writing
        to it cannot reach the index. */
    method GetPosts() returns (result: array<Post>)
      ensures fresh(result)
      ensures result[..] == posts
    {
      var s := posts;
      result := new Post[|s|](k requires 0 <= k < |s| => s[k]);
    }
  }
}
