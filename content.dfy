/**
 * The site's content tree as the build sees it: per-article folders holding
 * already-parsed metadata and already-converted article bodies, the shared
 * template and message of the day, and the pages the build writes.  File
 * reading, JSON parsing and Markdown conversion are replaced by these values.
 */
module Content {
  import opened Wrappers
  import opened Html

  /** Directory and file names, relative to the build root. */
  const RootDir: string := "www/"
  const BlogDir: string := "www/blog/"
  const TemplateFile: string := "template.html"
  const MotdFile: string := "motd.html"
  const IndexSource: string := "index.md"
  const ContentSrc: string := "/article.md"
  const ContentOut: string := "/article.html"

  /** The fields of an article's `article.json`. */
  datatype Metadata = Metadata(name: string, url: string, date: string)

  /** One folder under the blog directory: its metadata (None when
      `article.json` is missing, is not JSON, or lacks `name` or `url`; the
      build never reads `date`, which is empty when the file has none), its
      body already converted from Markdown (None when `article.md` is
      missing), and the page the build last wrote there. */
  datatype ArticleFolder = ArticleFolder(meta: Option<Metadata>, content: Option<Node>, page: Option<Node>)

  /** Everything the build reads and writes.  `homepage` is `index.html`;
      `blog` maps each folder name under the blog directory to its folder. */
  datatype Site = Site(
    template: Option<Node>,
    motd: Option<Node>,
    indexContent: Option<Node>,
    homepage: Option<Node>,
    blog: map<string, ArticleFolder>)

  /** The exceptions that end a build. */
  datatype BuildError =
    | FileMissing(path: string)
    | MetadataError(folder: string)
    | MissingAnchor(cls: string)
    | MissingIconChild(tag: string)
    | RenameCollision(folder: string, url: string)

  /** The state a stage leaves behind and the error that stopped it, if any:
      what was written before an error stays written. */
  datatype Outcome<S> = Outcome(state: S, error: Option<BuildError>)

  predicate HasMeta(blog: map<string, ArticleFolder>, folder: string) {
    folder in blog && blog[folder].meta.Some?
  }

  function MetaOf(blog: map<string, ArticleFolder>, folder: string): Metadata
    requires HasMeta(blog, folder)
  {
    blog[folder].meta.value
  }

  /** `listing` is a directory listing of `folders`: each folder exactly
      once, in some order the file system chooses. */
  predicate Lists(listing: seq<string>, folders: set<string>) {
    && (forall i, j :: 0 <= i < j < |listing| ==> listing[i] != listing[j])
    && (forall i :: 0 <= i < |listing| ==> listing[i] in folders)
    && (forall f :: f in folders ==> f in listing)
  }

  /** Where the page of the article in `folder` is written. */
  function ArticlePagePath(folder: string): string {
    BlogDir + folder + ContentOut
  }
}
