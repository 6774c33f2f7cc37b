/**
 The per-post transform of the Ghost-to-Hugo export script: one post record
 from the Ghost Content API becomes either nothing (the post is skipped), a
 thrown error, or an output path with a frontmatter record, from which the
 Markdown file's text is rendered.
 */
module PostTransform {
  import opened JsValues
  import opened JsStrings

  /** A tag as embedded in a post; only its name is read. */
  datatype Tag = Tag(name: Option<string>)

  /**
   An author as embedded in a post: the own properties of the author object,
   key and value, in the object's key order, which `...author` copies and the
   YAML dumper writes in. A JavaScript object holds each key once
   (`DistinctKeys`); where a list repeats a key, the first entry is the one
   that is read.
   */
  datatype Author = Author(fields: seq<(string, Option<string>)>)

  const ProfileImageKey: string := "profile_image"

  /** No key occurs twice, as in every JavaScript object. */
  predicate DistinctKeys(fields: seq<(string, Option<string>)>) {
    forall i, j :: 0 <= i < |fields| && 0 <= j < |fields| && fields[i].0 == fields[j].0 ==> i == j
  }

  /** The position of `key` among the fields, the first one if it repeats. */
  function FieldIndex(fields: seq<(string, Option<string>)>, key: string): (r: Option<nat>)
    ensures r.Some? ==> r.value < |fields| && fields[r.value].0 == key
    ensures forall j :: 0 <= j < |fields| && (r.None? || j < r.value) ==> fields[j].0 != key
  {
    if fields == [] then None
    else if fields[0].0 == key then Some(0)
    else match FieldIndex(fields[1..], key)
      case None => None
      case Some(k) => Some(k + 1)
  }

  /** `author.profile_image`: None when it is null or the author has no such key. */
  function ProfileImage(a: Author): Option<string> {
    match FieldIndex(a.fields, ProfileImageKey)
    case None => None
    case Some(k) => a.fields[k].1
  }

  /**
   `after` is `{...before, profile_image: small}`: the same keys in the same
   order, every value kept except profile_image's, which becomes the small
   avatar URL where it stands.
   */
  ghost predicate RewrittenAuthor(before: Author, after: Author) {
    && ProfileImage(before).Some?
    && |after.fields| == |before.fields|
    && var k := FieldIndex(before.fields, ProfileImageKey).value;
    && after.fields[k] == (ProfileImageKey, Some(SmallProfileImage(ProfileImage(before).value)))
    && forall j :: 0 <= j < |before.fields| && j != k ==> after.fields[j] == before.fields[j]
  }

  /** The fields of a Ghost post that the script reads; None is null or undefined. */
  datatype Post = Post(
    title: Option<string>,
    metaTitle: Option<string>,
    metaDescription: Option<string>,
    excerpt: Option<string>,
    slug: string,
    featureImage: Option<string>,
    updatedAt: Option<string>,
    publishedAt: Option<string>,
    featured: bool,
    visibility: Option<string>,
    ogTitle: Option<string>,
    ogDescription: Option<string>,
    ogImage: Option<string>,
    canonicalUrl: Option<string>,
    tags: Option<seq<Tag>>,
    authors: Option<seq<Author>>,
    html: Option<string>)

  /**
   The frontmatter object handed to the YAML dumper, fields in the order the
   script inserts its keys. For the always-present keys None is a null value;
   for ogTitle, ogDescription, categories and canonical None means the key is
   absent.
   */
  datatype Frontmatter = Frontmatter(
    title: Option<string>,
    description: Option<string>,
    pagetitle: Option<string>,
    slug: string,
    featureImage: Option<string>,
    lastmod: Option<string>,
    date: Option<string>,
    summary: Option<string>,
    i18nlanguage: string,
    weight: int,
    draft: bool,
    ogTitle: Option<string>,
    ogDescription: Option<string>,
    ogImage: string,
    categories: Option<seq<Option<string>>>,
    authors: seq<Author>,
    canonical: Option<string>)

  /** The TypeError thrown when `author.profile_image` is null: the index of that author. */
  datatype Failure = NullProfileImage(author: nat)

  datatype Result<T> = Ok(value: T) | Err(failure: Failure)

  /** What one post's callback does: nothing, a file to write, or a thrown error. */
  datatype Outcome = Skipped | Written(path: string, frontmatter: Frontmatter) | Threw(failure: Failure)

  /** The hard-coded site root that og_image values are made absolute with. */
  const BaseUrl: string := "https://your_ghost.url"
  const ImagesSegment: string := "content/images/"
  const SmallImagesSegment: string := "content/images/size/w100/"
  const PostsPrefix: string := "content/posts/"
  const Language: string := "en"

  /** `path.join('content/posts', slug + '.md')` for a slug without path separators. */
  function PostPath(slug: string): (p: string)
    ensures |p| == |PostsPrefix| + |slug| + 3
    ensures p[..|PostsPrefix|] == PostsPrefix
    ensures p[|PostsPrefix|..|PostsPrefix| + |slug|] == slug
    ensures p[|PostsPrefix| + |slug|..] == ".md"
  {
    PostsPrefix + slug + ".md"
  }

  /** Distinct slugs give distinct output paths. */
  lemma PathInjective(a: string, b: string)
    ensures PostPath(a) == PostPath(b) ==> a == b
  {
    if PostPath(a) == PostPath(b) {
      assert |a| == |b|;
    }
  }

  /** `post.og_image || post.feature_image || ''`. */
  function OgImageSource(post: Post): (src: string)
    ensures Truthy(post.ogImage) ==> src == post.ogImage.value
    ensures !Truthy(post.ogImage) && Truthy(post.featureImage) ==> src == post.featureImage.value
    ensures !Truthy(post.ogImage) && !Truthy(post.featureImage) ==> src == ""
  {
    OrDefault(Or(post.ogImage, post.featureImage), "")
  }

  /**
   The og_image rule: a value that already contains the base URL anywhere is
   kept, any other value gets the base URL put in front of it.
   */
  function AbsoluteOgImage(src: string): (r: string)
    ensures Includes(r, BaseUrl)
    ensures Includes(src, BaseUrl) ==> r == src
    ensures !Includes(src, BaseUrl) ==> r == BaseUrl + src
  {
    if Includes(src, BaseUrl) then src
    else
      OccursBetween("", BaseUrl, src);
      assert "" + BaseUrl + src == BaseUrl + src;
      BaseUrl + src
  }

  /** Applying the og_image rule to its own output changes nothing. */
  lemma OgImageIdempotent(src: string)
    ensures AbsoluteOgImage(AbsoluteOgImage(src)) == AbsoluteOgImage(src)
  {
  }

  /**
   The rule tests for the base URL anywhere, not as a prefix: a value that
   embeds the base URL after some other text is kept and does not start with it.
   */
  lemma OgImageNotAlwaysPrefixed()
    ensures var src := "https://cdn.example/?u=" + BaseUrl;
            AbsoluteOgImage(src) == src && src[..|BaseUrl|] != BaseUrl
  {
    var src := "https://cdn.example/?u=" + BaseUrl;
    OccursBetween("https://cdn.example/?u=", BaseUrl, "");
    assert "https://cdn.example/?u=" + BaseUrl + "" == src;
    assert src[8] == 'c' && BaseUrl[8] == 'y';
  }

  /** `author.profile_image.replace('content/images/', 'content/images/size/w100/')`. */
  function SmallProfileImage(image: string): (r: string)
    ensures (forall j :: !OccursAt(image, ImagesSegment, j)) ==> r == image
    ensures forall i :: IsFirstOccurrence(image, ImagesSegment, i) ==>
      r == image[..i] + SmallImagesSegment + image[i + |ImagesSegment|..]
  {
    ReplaceFirst(image, ImagesSegment, SmallImagesSegment)
  }

  /**
   `({...author, profile_image: author.profile_image.replace(...)})`: None
   when `.replace` would throw because profile_image is null or missing.
   */
  function RewriteAuthor(a: Author): (r: Option<Author>)
    ensures r.Some? <==> ProfileImage(a).Some?
    ensures r.Some? ==> RewrittenAuthor(a, r.value)
  {
    match FieldIndex(a.fields, ProfileImageKey)
    case None => None
    case Some(k) =>
      match a.fields[k].1
      case None => None
      case Some(image) =>
        Some(Author(a.fields[k := (ProfileImageKey, Some(SmallProfileImage(image)))]))
  }

  /**
   The spread keeps every key of the author where it stands, so a rewritten
   author reads back the small profile image and keeps distinct keys distinct.
   */
  lemma RewrittenAuthorKeepsKeys(a: Author, b: Author)
    requires RewrittenAuthor(a, b)
    ensures forall j :: 0 <= j < |a.fields| ==> b.fields[j].0 == a.fields[j].0
    ensures ProfileImage(b) == Some(SmallProfileImage(ProfileImage(a).value))
    ensures DistinctKeys(a.fields) ==> DistinctKeys(b.fields)
  {
    var k := FieldIndex(a.fields, ProfileImageKey).value;
    assert forall j :: 0 <= j < |a.fields| ==> b.fields[j].0 == a.fields[j].0 by {
      forall j | 0 <= j < |a.fields| ensures b.fields[j].0 == a.fields[j].0 {
        if j == k {
          assert b.fields[j] == (ProfileImageKey, Some(SmallProfileImage(ProfileImage(a).value)));
        }
      }
    }
    assert b.fields[k] == (ProfileImageKey, Some(SmallProfileImage(ProfileImage(a).value)));
    assert FieldIndex(b.fields, ProfileImageKey) == Some(k);
  }

  /**
   `post.authors.map(author => ({...author, profile_image: ...}))`: left to
   right, throwing at the first author whose profile_image is null.
   */
  function RewriteAuthors(authors: seq<Author>): (r: Result<seq<Author>>)
    ensures r.Ok? <==> forall i :: 0 <= i < |authors| ==> ProfileImage(authors[i]).Some?
    ensures r.Ok? ==> |r.value| == |authors|
    ensures r.Ok? ==> forall i :: 0 <= i < |authors| ==> RewrittenAuthor(authors[i], r.value[i])
    ensures r.Err? ==>
      && r.failure.author < |authors|
      && ProfileImage(authors[r.failure.author]).None?
      && forall j :: 0 <= j < r.failure.author ==> ProfileImage(authors[j]).Some?
  {
    if authors == [] then Ok([])
    else
      match RewriteAuthor(authors[0])
      case None => Err(NullProfileImage(0))
      case Some(first) =>
        match RewriteAuthors(authors[1..])
        case Err(NullProfileImage(k)) => Err(NullProfileImage(k + 1))
        case Ok(rest) => Ok([first] + rest)
  }

  /** `post.authors && post.authors.length`: the post names at least one author. */
  predicate HasAuthors(post: Post) {
    post.authors.Some? && |post.authors.value| > 0
  }

  /** `if (v) { frontmatter.key = v }`: the key holds `v` when it is truthy and is absent otherwise. */
  function OptionalKey(v: Option<string>): (r: Option<string>)
    ensures r.Some? <==> Truthy(v)
    ensures r.Some? ==> r == v
  {
    if Truthy(v) then v else None
  }

  /** `if (post.tags && post.tags.length) { frontmatter.categories = post.tags.map(t => t.name) }`. */
  function Categories(tags: Option<seq<Tag>>): (r: Option<seq<Option<string>>>)
    ensures r.Some? <==> tags.Some? && |tags.value| > 0
    ensures r.Some? ==> |r.value| == |tags.value| && forall i :: 0 <= i < |tags.value| ==> r.value[i] == tags.value[i].name
  {
    if tags.Some? && |tags.value| > 0
    then Some(seq(|tags.value|, i requires 0 <= i < |tags.value| => tags.value[i].name))
    else None
  }

  /**
   The frontmatter object of the script: its literal, then the keys it adds
   one by one (og_title, og_description, og_image, categories, authors,
   canonical), with the authors already rewritten.
   */
  function BuildFrontmatter(post: Post, authors: seq<Author>): (fm: Frontmatter)
    // Fallbacks through `||`: a falsy meta field yields to the plain one.
    ensures fm.title == (if Truthy(post.metaTitle) then post.metaTitle else post.title)
    ensures fm.description == (if Truthy(post.metaDescription) then post.metaDescription else post.excerpt)
    // Fields passed through as they are.
    ensures fm.pagetitle == post.title && fm.slug == post.slug && fm.featureImage == post.featureImage
    ensures fm.lastmod == post.updatedAt && fm.date == post.publishedAt && fm.summary == post.excerpt
    ensures fm.i18nlanguage == "en"
    // Boolean to number, enumeration to boolean.
    ensures (fm.weight == 1 <==> post.featured) && (fm.weight == 0 <==> !post.featured)
    ensures fm.draft <==> post.visibility != Some("public")
    // Optional keys: present exactly when the source is truthy, equal to it then.
    ensures fm.ogTitle.Some? <==> Truthy(post.ogTitle)
    ensures fm.ogTitle.Some? ==> fm.ogTitle == post.ogTitle
    ensures fm.ogDescription.Some? <==> Truthy(post.ogDescription)
    ensures fm.ogDescription.Some? ==> fm.ogDescription == post.ogDescription
    ensures fm.canonical.Some? <==> Truthy(post.canonicalUrl)
    ensures fm.canonical.Some? ==> fm.canonical == post.canonicalUrl
    // og_image always contains the base URL; it is made from og_image, feature_image or "".
    ensures Includes(fm.ogImage, BaseUrl)
    ensures fm.ogImage == AbsoluteOgImage(OgImageSource(post))
    // categories mirror the tag names, in order.
    ensures fm.categories.Some? <==> post.tags.Some? && |post.tags.value| > 0
    ensures fm.categories.Some? ==>
      && |fm.categories.value| == |post.tags.value|
      && forall i :: 0 <= i < |post.tags.value| ==> fm.categories.value[i] == post.tags.value[i].name
    ensures fm.authors == authors
  {
    Frontmatter(
      title := Or(post.metaTitle, post.title),
      description := Or(post.metaDescription, post.excerpt),
      pagetitle := post.title,
      slug := post.slug,
      featureImage := post.featureImage,
      lastmod := post.updatedAt,
      date := post.publishedAt,
      summary := post.excerpt,
      i18nlanguage := Language,
      weight := if post.featured then 1 else 0,
      draft := post.visibility != Some("public"),
      ogTitle := OptionalKey(post.ogTitle),
      ogDescription := OptionalKey(post.ogDescription),
      ogImage := AbsoluteOgImage(OgImageSource(post)),
      categories := Categories(post.tags),
      authors := authors,
      canonical := OptionalKey(post.canonicalUrl))
  }

  /** The body of the `posts.map` callback, up to the YAML dump. */
  function Transform(post: Post): (r: Outcome)
    // A post without authors produces nothing; one with an author whose
    // profile_image is null throws; every other post produces a file.
    ensures r.Skipped? <==> !HasAuthors(post)
    ensures r.Threw? <==> (HasAuthors(post) &&
      exists i :: 0 <= i < |post.authors.value| && ProfileImage(post.authors.value[i]).None?)
    ensures r.Threw? ==> RewriteAuthors(post.authors.value) == Err(r.failure)
    // The output path is fixed by the slug.
    ensures r.Written? ==> r.path == PostPath(post.slug)
    // The frontmatter is the script's record for this post and its rewritten authors.
    ensures r.Written? ==> r.frontmatter == BuildFrontmatter(post, r.frontmatter.authors)
    // authors: same length and order, profile_image made small where it stands, all else kept.
    ensures r.Written? ==> |r.frontmatter.authors| == |post.authors.value|
    ensures r.Written? ==> forall i :: 0 <= i < |post.authors.value| ==>
      RewrittenAuthor(post.authors.value[i], r.frontmatter.authors[i])
  {
    if !HasAuthors(post) then Skipped
    else
      match RewriteAuthors(post.authors.value)
      case Err(f) => Threw(f)
      case Ok(authors) => Written(PostPath(post.slug), BuildFrontmatter(post, authors))
  }

  /**
   The file text `---\n${yaml}\n---\n${content}\n`: it splits back into the
   YAML text and the body at the positions the lengths give.
   */
  function Render(yaml: string, body: string): (r: string)
    ensures |r| == |yaml| + |body| + 10
    ensures r[..4] == "---\n"
    ensures r[4..4 + |yaml|] == yaml
    ensures r[4 + |yaml|..9 + |yaml|] == "\n---\n"
    ensures r[9 + |yaml|..|r| - 1] == body
    ensures r[|r| - 1] == '\n'
  {
    "---\n" + yaml + "\n---\n" + body + "\n"
  }

  /** The text the script writes for a post that produces a file, with `dump` standing for `yaml.dump`. */
  function FileText(dump: Frontmatter -> string, post: Post, fm: Frontmatter): string {
    Render(dump(fm), TemplateText(post.html))
  }

  /**
   A worked example: a public, unfeatured post with one tag and one author,
   named before the avatar, whose avatar lives under content/images/.
   */
  const HelloWorld: Post := Post(
    title := Some("Hello"), metaTitle := None, metaDescription := None, excerpt := Some("intro"),
    slug := "hello-world", featureImage := None, updatedAt := None, publishedAt := None,
    featured := false, visibility := Some("public"), ogTitle := None, ogDescription := None,
    ogImage := None, canonicalUrl := None, tags := Some([Tag(Some("news"))]),
    authors := Some([Ann]), html := Some("<p>Hi</p>"))

  lemma HelloWorldExample()
    ensures Transform(HelloWorld).Written?
    ensures Transform(HelloWorld).path == "content/posts/hello-world.md"
    ensures var fm := Transform(HelloWorld).frontmatter;
      && fm.title == Some("Hello")
      && fm.description == Some("intro")
      && !fm.draft
      && fm.weight == 0
      && fm.categories == Some([Some("news")])
      && fm.ogImage == "https://your_ghost.url"
      && fm.authors == [Author([("name", Some("Ann")), ("profile_image", Some("content/images/size/w100/2020/a.jpg"))])]
  {
    var authors := HelloWorldWritten();
    HelloWorldFrontmatter(authors);
  }

  lemma HelloWorldWritten() returns (authors: seq<Author>)
    ensures authors == [Author([("name", Some("Ann")), ("profile_image", Some("content/images/size/w100/2020/a.jpg"))])]
    ensures Transform(HelloWorld) == Written("content/posts/hello-world.md", BuildFrontmatter(HelloWorld, authors))
  {
    authors := HelloWorldAuthors();
    assert HasAuthors(HelloWorld);
    assert PostPath("hello-world") == "content/posts/hello-world.md";
  }

  lemma HelloWorldFrontmatter(authors: seq<Author>)
    ensures var fm := BuildFrontmatter(HelloWorld, authors);
      && fm.title == Some("Hello")
      && fm.description == Some("intro")
      && !fm.draft
      && fm.weight == 0
      && fm.categories == Some([Some("news")])
      && fm.ogImage == "https://your_ghost.url"
      && fm.authors == authors
  {
    HelloWorldCategories();
    assert !Includes("", BaseUrl);
    assert "https://your_ghost.url" == BaseUrl + "";
  }

  /** The one author of the example post. */
  const Ann := Author([("name", Some("Ann")), ("profile_image", Some("content/images/2020/a.jpg"))])

  lemma HelloWorldAuthors() returns (authors: seq<Author>)
    ensures authors == [Author([("name", Some("Ann")), ("profile_image", Some("content/images/size/w100/2020/a.jpg"))])]
    ensures RewriteAuthors(HelloWorld.authors.value) == Ok(authors)
  {
    var first := AnnRewritten();
    assert HelloWorld.authors.value == [Ann];
    assert [Ann][1..] == [];
    assert RewriteAuthors([Ann]) == Ok([first] + []);
    assert [first] + [] == [first];
    authors := [first];
  }

  lemma AnnRewritten() returns (first: Author)
    ensures first == Author([("name", Some("Ann")), ("profile_image", Some("content/images/size/w100/2020/a.jpg"))])
    ensures RewriteAuthor(Ann) == Some(first)
  {
    var small := HelloWorldAvatar();
    assert Ann.fields[1..][0].0 == ProfileImageKey;
    assert FieldIndex(Ann.fields, ProfileImageKey) == Some(1);
    first := Author(Ann.fields[1 := (ProfileImageKey, Some(small))]);
    assert first.fields == [("name", Some("Ann")), ("profile_image", Some(small))];
  }

  lemma HelloWorldAvatar() returns (small: string)
    ensures small == "content/images/size/w100/2020/a.jpg"
    ensures SmallProfileImage("content/images/2020/a.jpg") == small
  {
    var image := "content/images/2020/a.jpg";
    OccursBetween("", ImagesSegment, "2020/a.jpg");
    assert "" + ImagesSegment + "2020/a.jpg" == image;
    assert IsFirstOccurrence(image, ImagesSegment, 0);
    assert image[|ImagesSegment|..] == "2020/a.jpg";
    small := SmallImagesSegment + "2020/a.jpg";
  }

  lemma HelloWorldCategories()
    ensures Categories(HelloWorld.tags) == Some([Some("news")])
  {
    var categories := Categories(HelloWorld.tags).value;
    assert |categories| == 1 && categories[0] == Some("news");
    assert categories == [Some("news")];
  }
}
