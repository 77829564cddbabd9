# A verified model of a small static site generator

The generator has two scripts.

- `build.py` turns a content tree into a website. Under `www/blog/`, each folder holds one article: `article.json` with its name, url and date, and `article.md` with its body. For each of these folders the script fills a shared HTML template (`www/template.html`) and writes `article.html` into that folder.
  - The template has four anchor `div`s, found by class: `page-title`, `alert`, `article` and `nav`.
  - Into these go the article's name (as an `<i>`), the message of the day (`www/motd.html`), the converted body and a navigation fragment.
  - The navigation fragment holds one `nav-item` block per article, and each block links to that article.
  - The script then fills the same template into the homepage `www/index.html`. The homepage's body is `www/index.md`, its title is fixed, and its links are relative to the site root. The script also points the template's icon link and icon picture at fixed targets.
  - Finally, the script renames every article folder whose name differs from the `url` in its metadata.
- `new_article.py` creates a fresh article folder. The folder holds an empty `res/` directory, an `article.json` made by interpolating the name, url and date into a fixed layout, and an empty `article.md`. The script refuses to replace an existing folder unless forced.

The model replaces the outside world by values:

- An HTML document is a tree of `Html.Node`. A parsed document that the build edits in place is a `Html.Soup` object, and a deep copy is a new `Soup`.
- The files the build reads are `Content.Site`, with metadata already parsed and bodies already converted from Markdown.
- The blog directory that the creation utility changes is a map of `NewArticle.Entry`.
- An exception is a `Result` failure, or an `Outcome` with an error. An outcome also keeps what was written before the error.

Each imperative routine is a Dafny method proved equal to a specification function:

- `GetArticleLinks`, `BuildArticles`, `BuildHomepage`, `EnforceArticleFolderNames` and `Build`;
- `AssembleArticlePage` and `AssembleHomepagePage`, on `Soup` objects;
- `CreateArticle`.

The lemmas in `BuildFacts` and `NewArticle` state what those functions guarantee.

Files:

- `wrappers.dfy`: Option and Result.
- `html.dfy`: the tree, `find`, `append`, attribute assignment, and the `Soup` class.
- `content.dfy`: the site, the metadata and the errors.
- `navigation.dfy`: `get_article_links`.
- `assembly.dfy`: the template edits for one article page and for the homepage.
- `build.dfy`: the three stages and `build`.
- `build_facts.dfy`: properties of the stages.
- `new_article.dfy`: `create_article`.

## Model

| member | source | states |
|---|---|---|
| Html.FindFirst | build.py:139-148 | `find(tag, cls)`. A reported path leads to a proper descendant that has the tag and carries the class token. |
| Html.FindFirstComplete | build.py:139-148 | When `find` reports nothing, no descendant matches. |
| Html.FindFirstIsFirst | build.py:139-148 | No match precedes, in document order, the node `find` reports. |
| Html.AppendChild | build.py:139-148 | `append`: the target element gets the child as its new last child. Its tag, classes and attributes are kept, and so is the root's. |
| Html.SetAttr | build.py:163-164 | `tag[key] = value`: the target element's attribute map is updated at `key` and nothing else of it changes. |
| Html.FindAfterAppend | build.py:139-148 | Appending a node that contains no match does not change what `find` reports. |
| Html.FindAfterSetAttr | build.py:163-172 | Setting an attribute never changes what `find` reports. |
| Html.AppendEachAnatomy | build.py:139-148 | Appends at anchors none of which is inside another: each anchor gains exactly its one new last child. Every node off the paths to the anchors is unchanged, and every node keeps its tag, classes and attributes. |
| Html.Soup.constructor | build.py:68 | A new document holds the given tree. |
| Html.Soup.Copy | build.py:128 | `deepcopy`: a fresh document with the same tree as the original, sharing no state with it. |
| Html.Soup.Append | build.py:96 | The document's tree is the old tree with the child appended at the target. |
| Html.Soup.SetAttribute | build.py:163-164 | The document's tree is the old tree with the attribute set at the target. |
| Navigation.HrefRoundTrip | build.py:84-88 | The url can be read back out of either kind of link target: `blog/` + url + `/article.html`, or `../` + url + `/article.html`. |
| Navigation.HrefInjective | build.py:84-88 | Distinct urls give distinct link targets of each kind. |
| Navigation.GetArticleLinks | build.py:64-98 | The loop that appends one `nav-item` block per listed folder builds exactly `Navigation.NavLinks`, or fails with the first folder's missing metadata. |
| Navigation.NavItemsFromShape | build.py:69-96 | The blocks exist iff every listed folder has metadata. There is one block per folder, in listing order, each built from that folder's metadata. Otherwise the error names the first folder without metadata. |
| Navigation.NavLinksShape | build.py:68-98 | The fragment is a document whose children are exactly one `div.nav-item` block per listed folder, in listing order, with no sorting. It exists iff all folders have metadata. |
| Navigation.NavItemLinks | build.py:76-95 | A block shows exactly one link, whose target is built from the metadata `url` and whose text is the metadata `name`. |
| Navigation.NavLinksLinks | build.py:71-96 | The fragment's links, in order, are one per listed folder. On the homepage the target is `blog/<url>/article.html`; on an article page it is `../<url>/article.html`. The text is `name`. |
| Assembly.TitleNodeAnchorFree | build.py:137-139 | The `<i>` title node holds none of the anchors, so appending it cannot divert a later lookup. |
| Assembly.AssembleArticlePage | build.py:128-148 | One article page is built on a deep copy. The page equals `Assembly.AssembleArticle`, and the shared template, message of the day and navigation documents are not modified. |
| Assembly.ArticleNeedsBody | build.py:143-144 | An article page is made only when the article's body could be read. |
| Assembly.ArticleAnchors | build.py:131-148 | With anchor-free inserts, each lookup finds the template's own anchor, and the page is the template with the title, message of the day, body and navigation appended at them. A missing anchor, or a missing body once the article anchor is found, is the error, in the script's order. |
| Assembly.ArticleAnatomy | build.py:136-148 | With four anchors none of which lies inside another, and when the message of the day, the body and the navigation hold no anchor, these gain as their one new last child the `<i>` with the article's name, the message of the day, the body and the navigation fragment respectively. Every other node is unchanged, and every node keeps its tag, classes and attributes. |
| Assembly.IconPathsValid | build.py:162-164 | The icon's first link and first image are two distinct elements, and both are still there after the first edit. |
| Assembly.EditIconSucceeds | build.py:162-164 | The icon edits succeed iff the template has an `icon` div with an `<a>` and an `<img>` below it. They then set that link's `href` and that image's `src`. |
| Assembly.HomepageAfterIcon | build.py:161-180 | When the icon edits succeed, the homepage is the icon-edited template with the remaining edits applied. |
| Assembly.EditIconPage | build.py:161-164 | The icon edits on the parsed template: either the error `Assembly.EditIcon` gives, with nothing else promised about the document, or no error and the document equals the `Assembly.EditIcon` result. |
| Assembly.IconEditsShape | build.py:162-164 | The icon edits set the link's `href` to `index.html` and the image's `src` to `res/me96.gif`. Every other node keeps its tag, classes and attributes. |
| Assembly.IconEditsElsewhere | build.py:162-164 | Every node off the paths to the icon link and image is unchanged by the icon edits. |
| Assembly.IconEditsKeepFinds | build.py:162-172 | The icon edits do not change what any later anchor lookup finds. |
| Assembly.HomepageAnchors | build.py:166-180 | With anchor-free inserts, the homepage is the template with the message of the day, the fixed title, the body and the navigation appended at its anchors. A missing anchor or a missing `index.md` is the error, in the script's order. |
| Assembly.HomepageIcon | build.py:161-164 | On a finished homepage the icon link points at `index.html` and the icon image shows `res/me96.gif`. Every other template node keeps its tag, classes and attributes. |
| Assembly.FillAnatomy | build.py:166-180 | After the icon edits, with four anchors none of which lies inside another, and when the message of the day, the body and the navigation hold no anchor, the anchors each gain exactly one new last child. Every other node is unchanged. |
| Assembly.HomepageAnatomy | build.py:161-180 | With four anchors none of which lies inside another, an icon with a link and an image neither of which lies inside an anchor, and a message of the day, body and navigation that hold no anchor, the homepage's anchors gain the message of the day, the `<i>` with the fixed title, the body and the navigation fragment. Every other node keeps its tag, classes and attributes. |
| Assembly.AssembleHomepagePage | build.py:157-184 | The homepage edits, on the parsed template itself: the result equals `Assembly.AssembleHomepage` of the template as it was. On success, the document itself is that page, and it is what gets written. |
| Assembly.FillHomepagePage | build.py:166-180 | The edits after the icon, on the parsed template: the result equals `Assembly.FillHomepage` of the template as it was before these edits. On success, the document itself is that page. |
| Build.BuildArticles | build.py:108-152 | The article stage, with the template, message of the day and navigation parsed once and shared, equals `Build.ArticlesStage`: the pages written, and the error that stopped it. |
| Build.BuildHomepage | build.py:154-184 | The homepage stage equals `Build.HomepageStage`. |
| Build.EnforceArticleFolderNames | build.py:100-106 | The renaming loop over the listing taken before it equals `Build.ReconcileFrom`. |
| Build.Build | build.py:186-191 | Equals `Build.BuildSpec`: articles, then the homepage, then folder names; the first error stops the build with what was written so far. |
| BuildFacts.PageForSameSources | build.py:130-145 | A page depends only on the folder's metadata and body, not on pages written earlier. |
| BuildFacts.PageForNeedsSources | build.py:130-145 | A folder gets a page only when it has metadata and a body. |
| BuildFacts.WriteArticlesAsWriteWith | build.py:125-152 | Writing pages never changes what later iterations read, so the loop makes the pages it would make from the blog it started with. |
| BuildFacts.WriteWithSucceeds | build.py:125-152 | The loop succeeds iff every listed folder's page can be made, and then exactly those pages are written. |
| BuildFacts.FirstFailing | build.py:125-152 | The position of the first folder whose page cannot be made. All folders before it can be built. |
| BuildFacts.WriteWithFails | build.py:125-152 | A failing loop stops at the first failing folder, with that folder's error and exactly the pages before it written. |
| BuildFacts.WrittenPrefix | build.py:125-152 | With a listing of distinct folders, the first `k` folders get their pages and the later ones are untouched. |
| BuildFacts.WriteWithStops | build.py:125-152 | With a listing of distinct folders, a failing loop stops at the first failing folder with its error. No folder is added or removed, the folders before it have their pages, and it and the later ones are untouched. |
| BuildFacts.ArticlesBuilt | build.py:108-152 | A successful article stage writes into every folder the assembly of its own name, its body, the message of the day and the article-relative navigation. It changes nothing else. |
| BuildFacts.ArticlesStopAtFailure | build.py:125-152 | A failing article stage has written nothing when the template, the message of the day or any metadata is missing. Otherwise it stops at the first failing folder, whose page and those listed after it are untouched. |
| BuildFacts.NavItemFindsNoAnchor | build.py:76-95 | A `nav-item` block contains no `div` carrying another class. |
| BuildFacts.NavLinksAnchorFree | build.py:64-98 | The navigation fragment holds none of the anchors, so appending it cannot divert a lookup. |
| BuildFacts.ArticlesNoAnchorNoPages | build.py:139-152 | When the message of the day and every article body hold no anchor, a template missing an anchor yields no page at all, and an error when there is any folder to build. |
| BuildFacts.ArticlesIdempotent | build.py:108-152 | Re-running a successful article stage on its own output gives the same result. |
| BuildFacts.LinkTargets | build.py:84-88 | Resolved from the homepage or from an article page, a link to `url` leads to the page path of the folder named `url`. |
| BuildFacts.ArticlePagePathInjective | build.py:151 | Two folders' pages are at the same path iff they are the same folder. |
| BuildFacts.HrefTarget | build.py:84-88 | A link of either kind to `url` leads to the page of the folder named `url`, and so to the page of a given folder iff that folder is named `url`. |
| BuildFacts.NavLinkTargets | build.py:71-151 | Each navigation link leads to the page of the folder named by its metadata `url`. That is the page written for its own folder iff the folder is named after its `url`. |
| BuildFacts.RenamedKeepsFolders | build.py:106 | A rename to a free name moves the renamed folder's contents to the new name and leaves every other folder's contents under its own name. The names are the old ones less the old name plus the new one, and the number of folders and the set of contents are kept. |
| BuildFacts.ReconcileKeepsFolders | build.py:103-106 | Reconciliation, however it ends, neither loses nor duplicates a folder. There is an injective map from the old folder names onto the new ones, and each folder is found unchanged under its image. The number of folders and the set of contents are kept. |
| BuildFacts.ReconcileFromNamesMatch | build.py:103-106 | If every folder is named after its url or is still to be visited, a successful loop leaves every folder named after its url. |
| BuildFacts.ReconcileNamesMatch | build.py:103-106 | After a successful reconciliation, every folder's name equals its metadata `url`. |
| BuildFacts.ReconcileStep | build.py:104-106 | Visiting a folder not yet moved leaves it under its name when that is its url, and otherwise moves it to the url, which is free. |
| BuildFacts.ReconcileFromMoved | build.py:103-106 | With distinct urls that name no other folder, the loop succeeds and moves every visited folder to its url. |
| BuildFacts.ReconcileSucceeds | build.py:103-106 | With metadata everywhere, distinct urls, and no url naming another folder, reconciliation succeeds. Each folder then sits at its url, and folders already matching are untouched. |
| BuildFacts.HomepageWritten | build.py:155-184 | The homepage stage writes `index.html` and nothing else. On failure nothing is written. |
| BuildFacts.ArticlesSucceed | build.py:108-152 | With all metadata, bodies and anchors present, and a message of the day and bodies that hold no anchor, every folder gets a page and nothing the build reads changes. |
| BuildFacts.HomepageSucceeds | build.py:155-184 | With anchors, an icon, `index.md` and all metadata present, and a message of the day and `index.md` that hold no anchor, the homepage stage succeeds. |
| BuildFacts.BuildSucceeds | build.py:187-191 | The build succeeds when the listing names exactly the blog's folders, the template, message of the day and `index.md` are present, the template has its four anchors and an icon with a link and an image, every folder has a body, the bodies, message of the day and `index.md` hold no anchor, and the folders are reconcilable (each has metadata, the urls are distinct, and no url names another folder). The homepage is written, and every article is moved to its url with its metadata and body kept and its page written. Every folder is then named after its url. |
| NewArticle.CreateArticle | new_article.py:52-90 | The step-by-step creation (check, forced removal, two `mkdir`s, two writes) ends in exactly the directory and return value of `NewArticle.Create`, whatever `verbose` is. |
| NewArticle.CreateRefusesExisting | new_article.py:61-69 | Without `force`, an existing folder is refused and the directory is unchanged. |
| NewArticle.CreateMakesFolder | new_article.py:57-90 | Creation succeeds iff the folder is absent, or is a directory and `force` is set. The result is `dir + url + "/"`. The folder then holds exactly `res` (empty), `article.json` (the `NewArticle.ArticleJson` text) and `article.md` (empty), whatever it held before. Other entries are unchanged, and a failure changes nothing. |
| NewArticle.ForcedCreateIdempotent | new_article.py:64-87 | A forced creation repeated on its own result leaves the same directory. |
| NewArticle.ParseArticleJson | new_article.py:77-84 | Reads the metadata layout back. Anything it accepts is exactly that layout around three plain strings. |
| NewArticle.ArticleJsonRoundTrip | new_article.py:77-84 | The written metadata (`NewArticle.ArticleJson`) reads back as the given name, url and date iff none of them holds a quote, a backslash or a control character, since nothing is escaped. |
| NewArticle.QuotedNameUnreadable | new_article.py:79-83 | A name with a double quote in it does not read back. |

## Left out

- HTML parsing and serialisation: a document is its parsed tree, and the text of a written page is not modelled. Byte-level claims about output are therefore out of reach.
- Markdown conversion is an input: an article body is the already-converted tree, or absent when `article.md` is missing.
- Reading `article.json` in the build is not modelled. The site holds the parsed metadata, or nothing when the file is missing, is not valid JSON, or lacks `name` or `url`. The build never reads `date`, so a file without one still builds. The model's `date` is then empty. `NewArticle.ParseArticleJson` reads only the layout the creation utility writes, not arbitrary JSON.
- Metadata values are taken to be strings. A non-string `url`, such as a number, makes the path concatenation at build.py:106 raise a type error, which the model does not capture. A non-string `name` is not modelled either.
- File reads and writes, `os.listdir` and `os.chdir` are replaced by the `Site` value and a listing passed in.
  - The listing is taken to be the same each time the build lists the blog directory.
  - All paths are relative to the build root, which is not modelled: `build.py:10` and `_paths.py:3` name different roots.
- The `timer` decorator, with its clock readings and printing, and the top-level catch-and-print are left out. `verbose` printing is left out too; `verbose` does not affect the result.
- argparse and the module-level call in `new_article.py`.
- Node identity is not modelled. The `li` that is appended twice to its `ul` (build.py:82, build.py:94) is built with the one `li` the library's move semantics leaves.
- A whole parsed document appended under an anchor is appended as one node. The HTML library instead moves that document's top-level children in, and appending a node that already has a parent moves it out of that parent. Because a `Node` is a value, the message of the day and the navigation fragment stay intact in the model whatever is appended, so the deep copies of them made for each article page (build.py:142, build.py:148) are not what keeps them unchanged here. Only the copy of the template (build.py:128) is checked, through the frames of the `Soup` objects.
- Build.EnforceArticleFolderNames: a `url` is taken as one entry name in the blog directory. A url with `/` or `..` in it, which would make `os.rename` (build.py:106) move the folder to a nested or outside path, is not modelled as a path.
- Build.EnforceArticleFolderNames: renaming onto an existing name is an error (`RenameCollision`). The operating system would instead replace an empty directory, which the model does not capture.
- NewArticle.CreateArticle: `url` is taken as one entry name in the blog directory. A url with `/` or `..` in it, which the utility's help text forbids, is not modelled as a path.
- NewArticle.CreateArticle: a missing blog directory, and failures of `mkdir` or of the writes, are not modelled. Removing a plain file where the folder should be is the one removal failure modelled (`NotADirectory`).
