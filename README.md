# Ghost-to-Hugo post export, modelled in Dafny

The repository is one Node.js script, `createMdFilesFromGhost.js`. It fetches every post from a Ghost
Content API, with its tags and authors. It turns each post into a Markdown file for Hugo: a YAML
frontmatter block followed by the post's HTML. It writes that file to `content/posts/<slug>.md`.

This project models the per-post transform and the batch of writes around it:

- `js_values.dfy` (module `JsValues`): the JavaScript values a post field can hold.
  A field is a string, or it is missing (null or undefined, both `None`).
  The module also gives truthiness, `||` and `${...}` in a template literal.
- `js_strings.dfy` (module `JsStrings`): `String.prototype.indexOf`, `includes` and `replace` with a string pattern.
  `includes` is a substring test anywhere in the string.
  `replace` changes only the first occurrence.
- `post_transform.dfy` (module `PostTransform`): the datatypes `Post`, `Tag`, `Author` and `Frontmatter`.
  It holds the og_image rule, the author avatar rewrite and `Transform`.
  `Transform` turns a post into `Skipped`, `Threw(failure)` or `Written(path, frontmatter)`.
  `Render` builds the file text `---\n<yaml>\n---\n<html>\n`.
- `export_batch.dfy` (module `ExportBatch`): the file system as a map from path to text.
  `WriteAll` applies every post's write in list order.
  The method `Export` is the `posts.map` loop.
  The lemmas state what a run leaves on disk: which file each post produces, that a second run changes nothing, and that when slugs are unique the order of the writes does not matter.
  The laws about the map of files hold for any per-post writer that writes only to the post's own path.
  They are proved once for such a writer, and `ScriptWriter(dump)`, the script's own writer, is one.
  In the same way the failure that is logged is defined for any per-post outcome and used with `Transform`.

`yaml.dump` is a foreign library, so it is a parameter `dump: Frontmatter -> string`.
The fields of `Frontmatter` are declared in the order in which the script inserts the keys.
An `Author` is the list of its own key-value pairs in the object's key order.
`{...author, profile_image: ...}` keeps that order and replaces profile_image's value where it stands, and the model does the same.
So everything the dumper could depend on, including key order, is in the value it receives, except the difference between null and undefined, which the model merges into `None`.

How a failure behaves: an author whose `profile_image` is null makes `.replace` throw.
It throws synchronously inside that post's async callback.
By then `posts.map` has already started the callbacks of the posts before it, and it goes on to start the rest.
`Promise.all` rejects and the top-level `catch` logs one error.
Every other post that neither throws nor is skipped for want of authors still reaches its `writeFile`.
`Export` therefore writes the file of every post whose `Transform` is `Written`.
It returns, as `logged`, the failure of the first post that threw.

The og_image rule is easy to read as "put the base URL in front".
The code (line 58) tests `includes`, which finds the URL anywhere in the value.
The model follows the code: `AbsoluteOgImage` guarantees only that the URL occurs somewhere.
`OgImageNotAlwaysPrefixed` exhibits a kept value that does not start with it.

## Model

| member | source | states |
|---|---|---|
| `JsStrings.IndexOf` | createMdFilesFromGhost.js:75 | the result is the leftmost index where the pattern occurs; it is None exactly when the pattern occurs nowhere |
| `JsStrings.Includes` | createMdFilesFromGhost.js:58 | true exactly when the pattern occurs at some index of the string (a substring test, not a prefix test) |
| `JsStrings.ReplaceFirst` | createMdFilesFromGhost.js:75 | with no occurrence, the string is unchanged; otherwise only the leftmost occurrence is replaced by the replacement and the text before and after it is kept |
| `PostTransform.PostPath` | createMdFilesFromGhost.js:90 | the path is `content/posts/`, then the slug, then `.md`, and each part can be read back at its position |
| `PostTransform.PathInjective` | createMdFilesFromGhost.js:90 | two slugs with the same output path are equal |
| `PostTransform.OgImageSource` | createMdFilesFromGhost.js:57 | og_image when truthy, else feature_image when truthy, else "" |
| `PostTransform.AbsoluteOgImage` | createMdFilesFromGhost.js:57-61 | the result always contains `https://your_ghost.url`; a source that contains it is kept; any other source gets it prepended |
| `PostTransform.OgImageIdempotent` | createMdFilesFromGhost.js:57-61 | applying the og_image rule twice gives the same as applying it once |
| `PostTransform.OgImageNotAlwaysPrefixed` | createMdFilesFromGhost.js:58-60 | a source with the base URL after other text is kept as it is, and it does not start with the base URL |
| `PostTransform.SmallProfileImage` | createMdFilesFromGhost.js:75 | an avatar URL without `content/images/` is unchanged; otherwise its first `content/images/` becomes `content/images/size/w100/` and the rest of the URL is kept |
| `PostTransform.FieldIndex` | createMdFilesFromGhost.js:75 | the result is the position of the first field with the key, and it is None exactly when no field has that key |
| `PostTransform.RewriteAuthor` | createMdFilesFromGhost.js:73-76 | fails exactly when the author's profile_image is null or missing; otherwise the result has the same keys in the same order, profile_image's value made small at its own position, and every other value unchanged |
| `PostTransform.RewrittenAuthorKeepsKeys` | createMdFilesFromGhost.js:73-76 | a rewritten author keeps every key at its position, reads back the small avatar URL as its profile_image, and has distinct keys when the original has |
| `PostTransform.RewriteAuthors` | createMdFilesFromGhost.js:73-76 | succeeds exactly when every author has a profile_image; then it has the same length and order, and each author is rewritten in place as `RewriteAuthor` states; otherwise it fails at the first author whose profile_image is null |
| `PostTransform.OptionalKey` | createMdFilesFromGhost.js:47-53 | the key is present exactly when the source value is truthy, and then it equals that value |
| `PostTransform.Categories` | createMdFilesFromGhost.js:63-65 | present exactly when tags exist and are non-empty; then it has the same length as tags and element i is the name of tag i |
| `PostTransform.BuildFrontmatter` | createMdFilesFromGhost.js:33-81 | title falls back from a falsy meta_title to title, and description from meta_description to excerpt; pagetitle, slug, feature_image, lastmod, date and summary pass through; i18nlanguage is "en"; weight is 1 exactly when the post is featured and 0 otherwise; draft is true exactly when visibility is not "public"; og_title, og_description and canonical are present exactly when their sources are truthy, and equal them then; og_image contains the base URL; categories mirror the tag names; authors are the given ones |
| `PostTransform.Transform` | createMdFilesFromGhost.js:31-90 | a post with missing or empty authors is skipped; one with a null author profile_image throws the first such author's failure; any other post is written to `content/posts/<slug>.md` with the record of `BuildFrontmatter` and its authors rewritten in order |
| `PostTransform.Render` | createMdFilesFromGhost.js:87 | the file text is `---\n`, the YAML, `\n---\n`, the body and a final newline, and YAML and body can be read back at their positions |
| `PostTransform.HelloWorldExample` | createMdFilesFromGhost.js:33-76 | a public, unfeatured post `hello-world` with title "Hello", excerpt "intro", tag "news" and avatar `content/images/2020/a.jpg` is written to `content/posts/hello-world.md`; its frontmatter has title "Hello", draft false, weight 0, categories ["news"], og_image equal to the base URL, and one author whose name comes first and whose avatar, second, is `content/images/size/w100/2020/a.jpg` |
| `ExportBatch.FileOf` | createMdFilesFromGhost.js:84-90 | a post yields a file exactly when its transform is `Written`; the file sits at `content/posts/<slug>.md` and holds `---\n`, the dump of its frontmatter, `\n---\n`, then the html and a newline, or `null` and a newline when the html is null |
| `ExportBatch.ScriptWritesOwnPath` | createMdFilesFromGhost.js:90 | every file the script writes for a post is at that post's own path |
| `ExportBatch.WriteAllIsLastWrite` | createMdFilesFromGhost.js:30-91 | after the batch, a path holds the text of the last post that writes it, or its earlier content when no post writes it |
| `ExportBatch.ExportIdempotent` | createMdFilesFromGhost.js:30-91 | running the export twice on the same posts leaves the same files as running it once |
| `ExportBatch.LastWriteOfUnique` | createMdFilesFromGhost.js:90 | with unique slugs and writes to each post's own path, the last write to a post's path is that post's own file |
| `ExportBatch.LastWriteOfNone` | createMdFilesFromGhost.js:90 | a path that no post writes has no last write |
| `ExportBatch.WrittenPostFile` | createMdFilesFromGhost.js:84-90 | with unique slugs, a post that produces output leaves `content/posts/<slug>.md` holding exactly `---\n` + dump(frontmatter) + `\n---\n` + html + `\n`, and `null` in place of the html when the post has no html |
| `ExportBatch.UnwrittenPostFile` | createMdFilesFromGhost.js:68-70 | with unique slugs, a skipped or throwing post creates no file at its path and changes none |
| `ExportBatch.ExportOrderIrrelevant` | createMdFilesFromGhost.js:30-91 | with unique slugs and writes to each post's own path, any reordering of the posts leaves the same files |
| `ExportBatch.FirstFailureOfFirstThrower` | createMdFilesFromGhost.js:94-95 | for any per-post outcome (the script's is `Transform`), the failure that reaches the `catch` is absent exactly when no post throws, and otherwise it is the failure of the first post that throws |
| `ExportBatch.Export` | createMdFilesFromGhost.js:30-96 | the files after the loop are `WriteAll` of the posts; the logged failure is absent exactly when no post throws, and otherwise it is the failure of the first post that throws |

## Left out

- Creating the Ghost Content API client and calling `posts.browse` (lines 13-17 and 24-28) is a network call. The fetched posts are an input sequence, so a fetch failure, which would write no file at all, is not modelled.
- Loading configuration from the environment and dotenv (lines 7-12) is process I/O.
- `yaml.dump` (line 84) is the js-yaml library. It is the parameter `dump`. Its output format is not modelled, and neither is how it renders an `undefined` value.
- `fs.writeFile` (line 90) is modelled as an update of a map from path to text. Write errors are not modelled.
- `Promise.all` and the concurrent writes (line 30) are modelled as a sequential loop in list order. When two posts share a slug, the real outcome depends on which write ends last. The model lets the later post in the list win. The lemmas about order assume unique slugs, as Ghost guarantees.
- The console timing and `console.error` (lines 20, 93-96) are left out. The logged error is modelled only as the `Failure` that `Export` returns.
- `PostPath` is plain concatenation. `path.join` would also normalise a slug containing `/` or `..` segments. Ghost slugs contain neither.
- null and undefined are both `None`. A slug that is null or undefined would be written to `null.md` or `undefined.md`; the model's slug is always a string.
- `TemplateText` renders every missing html body as `null`, as `${null}` does. An undefined body would render as `undefined`; the model does not tell the two apart.
- Field values are strings, or booleans for `featured`. Other JavaScript values in those fields are not modelled, and neither are the errors they could raise: a null element of `tags` or `authors`, or a non-string og_image. The only error modelled is a null profile_image.
- JavaScript strings are UTF-16 code units. The model's strings are sequences of Unicode characters. The substring tests agree on every string that has no lone surrogate.
- `ReplaceFirst` inserts its replacement literally and does not expand `$` patterns. This matches the script exactly, because its replacement string contains no `$`.
