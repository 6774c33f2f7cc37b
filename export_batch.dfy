/**
 The batch of the export script: every fetched post goes through the
 per-post transform and, when it produces one, its file is written to
 `content/posts/`, overwriting whatever was there. The file system is a map
 from path to text; `dump` stands for `yaml.dump`.

 A post whose callback throws writes nothing, but it does not stop the
 others: each callback has already been started by `posts.map` before
 `Promise.all` rejects, so every other post's file is still written, and
 the one error that reaches the top-level `catch` is that of the first
 post that threw.

 The laws of the batch hold for any per-post writer that writes, if at all,
 to the post's own path; they are stated for such a writer and then for the
 script's own one, `ScriptWriter(dump)`.
 */
module ExportBatch {
  import opened JsValues
  import opened PostTransform

  type Files = map<string, string>

  /** What one post's callback writes: a path and its text, or nothing. */
  type Writer = Post -> Option<(string, string)>

  /** The path and text the script writes for a post, if it writes one. */
  function FileOf(dump: Frontmatter -> string, post: Post): (f: Option<(string, string)>)
    ensures f.Some? <==> Transform(post).Written?
    ensures f.Some? ==> f.value.0 == PostPath(post.slug)
    ensures f.Some? ==> f.value.1 == Render(dump(Transform(post).frontmatter), TemplateText(post.html))
    ensures f.Some? && post.html.Some? ==>
      f.value.1 == "---\n" + dump(Transform(post).frontmatter) + "\n---\n" + post.html.value + "\n"
    ensures f.Some? && post.html.None? ==>
      f.value.1 == "---\n" + dump(Transform(post).frontmatter) + "\n---\nnull\n"
  {
    match Transform(post)
    case Written(path, fm) => Some((path, FileText(dump, post, fm)))
    case _ => None
  }

  /** The script's writer: `fs.writeFile` of the transformed post, if any. */
  function ScriptWriter(dump: Frontmatter -> string): Writer {
    post => FileOf(dump, post)
  }

  /** Every file the writer produces for a post sits at `content/posts/<slug>.md`. */
  ghost predicate WritesOwnPath(write: Writer) {
    forall post :: write(post).Some? ==> write(post).value.0 == PostPath(post.slug)
  }

  lemma ScriptWritesOwnPath(dump: Frontmatter -> string)
    ensures WritesOwnPath(ScriptWriter(dump))
  {
  }

  /** One post's `fs.writeFile(path, text, { flag: 'w' })`, or nothing. */
  function WriteFile(write: Writer, files: Files, post: Post): Files {
    match write(post)
    case Some((path, text)) => files[path := text]
    case None => files
  }

  /** All posts' writes, issued in the order of the fetched list. */
  function WriteAll(write: Writer, files: Files, posts: seq<Post>): Files
    decreases |posts|
  {
    if posts == [] then files
    else WriteFile(write, WriteAll(write, files, posts[..|posts| - 1]), posts[|posts| - 1])
  }

  /** The text of the last write to `path` among `posts`, if any post writes it. */
  function LastWrite(write: Writer, posts: seq<Post>, path: string): Option<string>
    decreases |posts|
  {
    if posts == [] then None
    else
      var f := write(posts[|posts| - 1]);
      if f.Some? && f.value.0 == path then Some(f.value.1)
      else LastWrite(write, posts[..|posts| - 1], path)
  }

  /**
   After the batch, a path holds the text of the last post that writes it,
   or what it held before when no post writes it.
   */
  lemma {:induction false} WriteAllIsLastWrite(write: Writer, files: Files, posts: seq<Post>, path: string)
    ensures path in WriteAll(write, files, posts) <==> path in files || LastWrite(write, posts, path).Some?
    ensures LastWrite(write, posts, path).Some? ==> WriteAll(write, files, posts)[path] == LastWrite(write, posts, path).value
    ensures LastWrite(write, posts, path).None? && path in files ==> WriteAll(write, files, posts)[path] == files[path]
    decreases |posts|
  {
    if posts != [] {
      WriteAllIsLastWrite(write, files, posts[..|posts| - 1], path);
    }
  }

  /** Running the export a second time on the same posts changes no file. */
  lemma ExportIdempotent(write: Writer, files: Files, posts: seq<Post>)
    ensures WriteAll(write, WriteAll(write, files, posts), posts) == WriteAll(write, files, posts)
  {
    var once := WriteAll(write, files, posts);
    var twice := WriteAll(write, once, posts);
    forall path | true
      ensures path in twice <==> path in once
      ensures path in once ==> twice[path] == once[path]
    {
      WriteAllIsLastWrite(write, files, posts, path);
      WriteAllIsLastWrite(write, once, posts, path);
    }
  }

  /** No two fetched posts share a slug (Ghost guarantees this; the script relies on it). */
  predicate UniqueSlugs(posts: seq<Post>) {
    forall i, j :: 0 <= i < |posts| && 0 <= j < |posts| && posts[i].slug == posts[j].slug ==> i == j
  }

  /** Under unique slugs, a post's file is the only write to its path. */
  lemma {:induction false} LastWriteOfUnique(write: Writer, posts: seq<Post>, i: int)
    requires WritesOwnPath(write) && UniqueSlugs(posts)
    requires 0 <= i < |posts| && write(posts[i]).Some?
    ensures LastWrite(write, posts, write(posts[i]).value.0) == Some(write(posts[i]).value.1)
    decreases |posts|
  {
    var n := |posts| - 1;
    if i < n {
      var init := posts[..n];
      PathInjective(posts[n].slug, posts[i].slug);
      assert posts[n].slug != posts[i].slug;
      assert init[i] == posts[i];
      LastWriteOfUnique(write, init, i);
    }
  }

  /** A path that no post writes has no last write. */
  lemma {:induction false} LastWriteOfNone(write: Writer, posts: seq<Post>, path: string)
    requires forall i :: 0 <= i < |posts| ==> write(posts[i]).None? || write(posts[i]).value.0 != path
    ensures LastWrite(write, posts, path).None?
    decreases |posts|
  {
    if posts != [] {
      var init := posts[..|posts| - 1];
      assert forall i :: 0 <= i < |init| ==> init[i] == posts[i];
      LastWriteOfNone(write, init, path);
    }
  }

  /** A post that produces a file leaves exactly that file at `content/posts/<slug>.md`. */
  lemma WrittenPostFile(dump: Frontmatter -> string, files: Files, posts: seq<Post>, i: int)
    requires UniqueSlugs(posts)
    requires 0 <= i < |posts| && Transform(posts[i]).Written?
    ensures PostPath(posts[i].slug) in WriteAll(ScriptWriter(dump), files, posts)
    ensures posts[i].html.Some? ==>
      WriteAll(ScriptWriter(dump), files, posts)[PostPath(posts[i].slug)] ==
      "---\n" + dump(Transform(posts[i]).frontmatter) + "\n---\n" + posts[i].html.value + "\n"
    ensures posts[i].html.None? ==>
      WriteAll(ScriptWriter(dump), files, posts)[PostPath(posts[i].slug)] ==
      "---\n" + dump(Transform(posts[i]).frontmatter) + "\n---\nnull\n"
  {
    var write := ScriptWriter(dump);
    var file := FileOf(dump, posts[i]);
    ScriptWritesOwnPath(dump);
    assert write(posts[i]) == file;
    LastWriteOfUnique(write, posts, i);
    WriteAllIsLastWrite(write, files, posts, PostPath(posts[i].slug));
    assert WriteAll(write, files, posts)[PostPath(posts[i].slug)] == file.value.1;
  }

  /**
   A post that is skipped (no authors) or that throws leaves its path as it
   was: no file is created or changed for that slug.
   */
  lemma UnwrittenPostFile(dump: Frontmatter -> string, files: Files, posts: seq<Post>, i: int)
    requires UniqueSlugs(posts)
    requires 0 <= i < |posts| && !Transform(posts[i]).Written?
    ensures PostPath(posts[i].slug) in WriteAll(ScriptWriter(dump), files, posts) <==> PostPath(posts[i].slug) in files
    ensures PostPath(posts[i].slug) in files ==>
            WriteAll(ScriptWriter(dump), files, posts)[PostPath(posts[i].slug)] == files[PostPath(posts[i].slug)]
  {
    var write := ScriptWriter(dump);
    var path := PostPath(posts[i].slug);
    assert write(posts[i]).None?;
    forall j | 0 <= j < |posts|
      ensures write(posts[j]).None? || write(posts[j]).value.0 != path
    {
      ScriptWritesOwnPath(dump);
      PathInjective(posts[j].slug, posts[i].slug);
    }
    LastWriteOfNone(write, posts, path);
    WriteAllIsLastWrite(write, files, posts, path);
  }

  /** Two equal elements at different positions make an element count at least two. */
  lemma TwiceCounted<T>(s: seq<T>, i: int, j: int)
    requires 0 <= i < j < |s| && s[i] == s[j]
    ensures multiset(s)[s[i]] >= 2
  {
    assert s == s[..j] + s[j..];
    assert s[..j][i] == s[i];
    assert s[j..][0] == s[j];
    assert multiset(s) == multiset(s[..j]) + multiset(s[j..]);
  }

  /** A sequence without repeated elements counts each element at most once. */
  lemma {:induction false} DistinctCountedOnce<T>(s: seq<T>, x: T)
    requires forall i, j :: 0 <= i < j < |s| ==> s[i] != s[j]
    ensures multiset(s)[x] <= 1
    decreases |s|
  {
    if s != [] {
      var init := s[..|s| - 1];
      assert s == init + [s[|s| - 1]];
      assert forall i :: 0 <= i < |init| ==> init[i] == s[i];
      DistinctCountedOnce(init, x);
      DistinctCountedOnce(init, s[|s| - 1]);
      assert s[|s| - 1] !in init;
    }
  }

  /** Reordering the posts keeps their slugs unique. */
  lemma PermutationKeepsUniqueSlugs(ps: seq<Post>, qs: seq<Post>)
    requires multiset(ps) == multiset(qs) && UniqueSlugs(ps)
    ensures UniqueSlugs(qs)
  {
    forall i, j | 0 <= i < |qs| && 0 <= j < |qs| && qs[i].slug == qs[j].slug
      ensures i == j
    {
      assert qs[i] in multiset(ps) && qs[j] in multiset(ps);
      var a :| 0 <= a < |ps| && ps[a] == qs[i];
      var b :| 0 <= b < |ps| && ps[b] == qs[j];
      assert qs[i] == qs[j];
      if i != j {
        if i < j { TwiceCounted(qs, i, j); } else { TwiceCounted(qs, j, i); }
        DistinctCountedOnce(ps, qs[i]);
        assert false;
      }
    }
  }

  /**
   With unique slugs the order in which the writes happen does not matter:
   any reordering of the posts leaves the same files.
   */
  lemma ExportOrderIrrelevant(write: Writer, files: Files, ps: seq<Post>, qs: seq<Post>)
    requires WritesOwnPath(write)
    requires multiset(ps) == multiset(qs) && UniqueSlugs(ps)
    ensures WriteAll(write, files, ps) == WriteAll(write, files, qs)
  {
    PermutationKeepsUniqueSlugs(ps, qs);
    forall path | true
      ensures LastWrite(write, ps, path) == LastWrite(write, qs, path)
    {
      if i :| 0 <= i < |ps| && write(ps[i]).Some? && write(ps[i]).value.0 == path {
        assert ps[i] in multiset(qs);
        var j :| 0 <= j < |qs| && qs[j] == ps[i];
        LastWriteOfUnique(write, ps, i);
        LastWriteOfUnique(write, qs, j);
      } else {
        forall j | 0 <= j < |qs|
          ensures write(qs[j]).None? || write(qs[j]).value.0 != path
        {
          assert qs[j] in multiset(ps);
          var a :| 0 <= a < |ps| && ps[a] == qs[j];
        }
        LastWriteOfNone(write, ps, path);
        LastWriteOfNone(write, qs, path);
      }
    }
    forall path | true
      ensures path in WriteAll(write, files, ps) <==> path in WriteAll(write, files, qs)
      ensures path in WriteAll(write, files, ps) ==> WriteAll(write, files, ps)[path] == WriteAll(write, files, qs)[path]
    {
      WriteAllIsLastWrite(write, files, ps, path);
      WriteAllIsLastWrite(write, files, qs, path);
    }
  }

  /** Post `k` is the first of the list whose callback, as `run` gives it, throws. */
  predicate FirstThrower(run: Post -> Outcome, posts: seq<Post>, k: int) {
    0 <= k < |posts| && run(posts[k]).Threw? && forall j :: 0 <= j < k ==> !run(posts[j]).Threw?
  }

  /** The failure that reaches the top-level `catch`: that of the earliest post that throws. */
  function FirstFailure(run: Post -> Outcome, posts: seq<Post>): Option<Failure>
    decreases |posts|
  {
    if posts == [] then None
    else
      var earlier := FirstFailure(run, posts[..|posts| - 1]);
      var last := run(posts[|posts| - 1]);
      if earlier.Some? then earlier
      else if last.Threw? then Some(last.failure)
      else None
  }

  /** FirstFailure is absent exactly when no post throws, and is otherwise the first thrower's failure. */
  lemma {:induction false} FirstFailureOfFirstThrower(run: Post -> Outcome, posts: seq<Post>)
    ensures FirstFailure(run, posts).None? <==> forall k :: 0 <= k < |posts| ==> !run(posts[k]).Threw?
    ensures FirstFailure(run, posts).Some? ==>
      exists k :: FirstThrower(run, posts, k) && run(posts[k]) == Threw(FirstFailure(run, posts).value)
    decreases |posts|
  {
    if posts != [] {
      var n := |posts| - 1;
      var init := posts[..n];
      FirstFailureOfFirstThrower(run, init);
      assert forall k :: 0 <= k < n ==> init[k] == posts[k];
      if FirstFailure(run, init).Some? {
        var k :| FirstThrower(run, init, k) && run(init[k]) == Threw(FirstFailure(run, init).value);
        assert FirstThrower(run, posts, k);
      } else if run(posts[n]).Threw? {
        assert FirstThrower(run, posts, n);
      }
    }
  }

  /**
   The batch of the script: the callback for each post in order, writing the
   files of those that produce one, and reporting the failure of the first
   post that threw, which is what the top-level `catch` logs.
   */
  method Export(dump: Frontmatter -> string, files: Files, posts: seq<Post>) returns (written: Files, logged: Option<Failure>)
    ensures written == WriteAll(ScriptWriter(dump), files, posts)
    ensures logged == FirstFailure(Transform, posts)
    ensures logged.None? <==> forall k :: 0 <= k < |posts| ==> !Transform(posts[k]).Threw?
    ensures logged.Some? ==> exists k :: FirstThrower(Transform, posts, k) && Transform(posts[k]) == Threw(logged.value)
  {
    written, logged := files, None;
    for i := 0 to |posts|
      invariant written == WriteAll(ScriptWriter(dump), files, posts[..i])
      invariant logged == FirstFailure(Transform, posts[..i])
    {
      assert posts[..i + 1][..i] == posts[..i];
      var outcome := Transform(posts[i]);
      if outcome.Written? {
        written := written[outcome.path := FileText(dump, posts[i], outcome.frontmatter)];
      } else if outcome.Threw? && logged.None? {
        logged := Some(outcome.failure);
      }
    }
    assert posts[..|posts|] == posts;
    FirstFailureOfFirstThrower(Transform, posts);
  }
}
