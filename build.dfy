/**
 * The build: article pages for every folder under the blog directory, then
 * the homepage, then the renaming of folders whose name differs from the
 * `url` in their metadata.  Each stage is a method over the site's content
 * tree, proved equal to a specification function; the lemmas below state
 * what the specification functions guarantee.
 */
module Build {
  import opened Wrappers
  import opened Html
  import opened Content
  import opened Navigation
  import opened Assembly

  // ---------------------------------------------------------------------
  // Article pages
  // ---------------------------------------------------------------------

  /** `get_content`: the article's converted body, or the error of opening
      its `article.md`. */
  function ContentOf(folder: string, a: ArticleFolder): Result<Node, BuildError> {
    if a.content.Some? then Success(a.content.value)
    else Failure(FileMissing(BlogDir + folder + ContentSrc))
  }

  /** The page the loop body of `build_articles` makes for `folder`: its
      metadata is read first, then the shared documents are assembled. */
  function PageFor(blog: map<string, ArticleFolder>, template: Node, motd: Node, nav: Node, folder: string)
    : Result<Node, BuildError>
  {
    if !HasMeta(blog, folder) then Failure(MetadataError(folder))
    else AssembleArticle(template, motd, nav, MetaOf(blog, folder).name, ContentOf(folder, blog[folder]))
  }

  /** Writing `article.html` into `folder`. */
  function WritePage(blog: map<string, ArticleFolder>, folder: string, page: Node): map<string, ArticleFolder>
    requires folder in blog
  {
    blog[folder := blog[folder].(page := Some(page))]
  }

  /** The loop of `build_articles` over the folders `rest`, on the blog as
      written so far; the first failing folder stops it, keeping the pages
      already written. */
  function WriteArticlesFrom(blog: map<string, ArticleFolder>, template: Node, motd: Node, nav: Node, rest: seq<string>)
    : Outcome<map<string, ArticleFolder>>
    decreases |rest|
  {
    if rest == [] then Outcome(blog, None)
    else match PageFor(blog, template, motd, nav, rest[0])
      case Failure(e) => Outcome(blog, Some(e))
      case Success(page) => WriteArticlesFrom(WritePage(blog, rest[0], page), template, motd, nav, rest[1..])
  }

  /** `build_articles`: reads the template and the message of the day,
      builds the navigation fragment with links relative to an article
      page, then writes one page per listed folder. */
  function ArticlesStage(site: Site, listing: seq<string>): Outcome<Site> {
    if site.template.None? then Outcome(site, Some(FileMissing(RootDir + TemplateFile)))
    else if site.motd.None? then Outcome(site, Some(FileMissing(RootDir + MotdFile)))
    else match NavLinks(site.blog, listing, false)
      case Failure(e) => Outcome(site, Some(e))
      case Success(nav) =>
        var w := WriteArticlesFrom(site.blog, site.template.value, site.motd.value, nav, listing);
        Outcome(site.(blog := w.state), w.error)
  }

  /** `build_articles`, step by step: the template, the message of the day
      and the navigation fragment are parsed once and shared by every page;
      each page is assembled on copies, so the shared documents are the
      same at every iteration. */
  method BuildArticles(site: Site, listing: seq<string>) returns (out: Outcome<Site>)
    ensures out == ArticlesStage(site, listing)
  {
    if site.template.None? {
      return Outcome(site, Some(FileMissing(RootDir + TemplateFile)));
    }
    var template := new Soup(site.template.value);
    if site.motd.None? {
      return Outcome(site, Some(FileMissing(RootDir + MotdFile)));
    }
    var motd := new Soup(site.motd.value);
    var navLinks := GetArticleLinks(site.blog, listing, false);
    if navLinks.Failure? {
      return Outcome(site, Some(navLinks.error));
    }
    var nav := new Soup(navLinks.value);
    var pages := listing;
    var blog := site.blog;
    var i := 0;
    while i < |pages|
      invariant 0 <= i <= |pages|
      invariant template.root == site.template.value && motd.root == site.motd.value && nav.root == navLinks.value
      invariant WriteArticlesFrom(site.blog, template.root, motd.root, nav.root, pages)
             == WriteArticlesFrom(blog, template.root, motd.root, nav.root, pages[i..])
    {
      var page := pages[i];
      assert pages[i..][0] == page && pages[i..][1..] == pages[i + 1..];
      if !HasMeta(blog, page) {
        return Outcome(site.(blog := blog), Some(MetadataError(page)));
      }
      var name := blog[page].meta.value.name;
      var soup := AssembleArticlePage(template, motd, nav, name, ContentOf(page, blog[page]));
      if soup.Failure? {
        return Outcome(site.(blog := blog), Some(soup.error));
      }
      blog := blog[page := blog[page].(page := Some(soup.value))];
      i := i + 1;
    }
    assert pages[i..] == [];
    return Outcome(site.(blog := blog), None);
  }

  // ---------------------------------------------------------------------
  // Homepage
  // ---------------------------------------------------------------------

  /** The converted `index.md`, or the error of opening it. */
  function IndexContent(site: Site): Result<Node, BuildError> {
    if site.indexContent.Some? then Success(site.indexContent.value)
    else Failure(FileMissing(RootDir + IndexSource))
  }

  /** `build_homepage`: the template, the message of the day and the
      navigation fragment with links relative to the homepage, assembled and
      written to `index.html`. */
  function HomepageStage(site: Site, listing: seq<string>): Outcome<Site> {
    if site.template.None? then Outcome(site, Some(FileMissing(RootDir + TemplateFile)))
    else if site.motd.None? then Outcome(site, Some(FileMissing(RootDir + MotdFile)))
    else match NavLinks(site.blog, listing, true)
      case Failure(e) => Outcome(site, Some(e))
      case Success(nav) =>
        match AssembleHomepage(site.template.value, site.motd.value, nav, IndexContent(site))
        case Failure(e) => Outcome(site, Some(e))
        case Success(page) => Outcome(site.(homepage := Some(page)), None)
  }

  method BuildHomepage(site: Site, listing: seq<string>) returns (out: Outcome<Site>)
    ensures out == HomepageStage(site, listing)
  {
    if site.template.None? {
      return Outcome(site, Some(FileMissing(RootDir + TemplateFile)));
    }
    var soup := new Soup(site.template.value);
    if site.motd.None? {
      return Outcome(site, Some(FileMissing(RootDir + MotdFile)));
    }
    var navLinks := GetArticleLinks(site.blog, listing, true);
    if navLinks.Failure? {
      return Outcome(site, Some(navLinks.error));
    }
    var page := AssembleHomepagePage(soup, site.motd.value, navLinks.value, IndexContent(site));
    if page.Failure? {
      return Outcome(site, Some(page.error));
    }
    return Outcome(site.(homepage := Some(page.value)), None);
  }

  // ---------------------------------------------------------------------
  // Folder names
  // ---------------------------------------------------------------------

  /** `os.rename` of the folder `from` to the free name `to`. */
  function Renamed(blog: map<string, ArticleFolder>, from: string, to: string): map<string, ArticleFolder>
    requires from in blog
  {
    (blog - {from})[to := blog[from]]
  }

  /** The loop of `enforce_article_folder_names` over the folders `rest` of
      the listing taken before the loop: a folder whose metadata names a
      different `url` is renamed to it, unless that name is taken. */
  function ReconcileFrom(blog: map<string, ArticleFolder>, rest: seq<string>): Outcome<map<string, ArticleFolder>>
    decreases |rest|
  {
    if rest == [] then Outcome(blog, None)
    else if !HasMeta(blog, rest[0]) then Outcome(blog, Some(MetadataError(rest[0])))
    else
      var url := MetaOf(blog, rest[0]).url;
      if url == rest[0] then ReconcileFrom(blog, rest[1..])
      else if url in blog then Outcome(blog, Some(RenameCollision(rest[0], url)))
      else ReconcileFrom(Renamed(blog, rest[0], url), rest[1..])
  }

  method EnforceArticleFolderNames(blog: map<string, ArticleFolder>, listing: seq<string>)
    returns (out: Outcome<map<string, ArticleFolder>>)
    ensures out == ReconcileFrom(blog, listing)
  {
    var folders := blog;
    var i := 0;
    while i < |listing|
      invariant 0 <= i <= |listing|
      invariant ReconcileFrom(blog, listing) == ReconcileFrom(folders, listing[i..])
    {
      var folderName := listing[i];
      assert listing[i..][0] == folderName && listing[i..][1..] == listing[i + 1..];
      if !HasMeta(folders, folderName) {
        return Outcome(folders, Some(MetadataError(folderName)));
      }
      var url := folders[folderName].meta.value.url;
      if url != folderName {
        if url in folders {
          return Outcome(folders, Some(RenameCollision(folderName, url)));
        }
        folders := (folders - {folderName})[url := folders[folderName]];
      }
      i := i + 1;
    }
    assert listing[i..] == [];
    return Outcome(folders, None);
  }

  // ---------------------------------------------------------------------
  // The whole build
  // ---------------------------------------------------------------------

  /** `build`: articles, then the homepage, then the folder names; an error
      stops the build with what was written so far. */
  function BuildSpec(site: Site, listing: seq<string>): Outcome<Site> {
    var a := ArticlesStage(site, listing);
    if a.error.Some? then a
    else
      var h := HomepageStage(a.state, listing);
      if h.error.Some? then h
      else
        var r := ReconcileFrom(h.state.blog, listing);
        Outcome(h.state.(blog := r.state), r.error)
  }

  method Build(site: Site, listing: seq<string>) returns (out: Outcome<Site>)
    ensures out == BuildSpec(site, listing)
  {
    out := BuildArticles(site, listing);
    if out.error.Some? {
      return;
    }
    out := BuildHomepage(out.state, listing);
    if out.error.Some? {
      return;
    }
    var folders := EnforceArticleFolderNames(out.state.blog, listing);
    out := Outcome(out.state.(blog := folders.state), folders.error);
  }
}
