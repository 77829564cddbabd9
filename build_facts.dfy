/**
 * What the build guarantees: which pages the article stage writes and
 * which it leaves alone, what a missing anchor does, that a second run
 * writes the same pages, where the navigation links lead, and what the
 * folder renaming leaves behind.
 */
module BuildFacts {
  import opened Wrappers
  import opened Html
  import opened Content
  import opened Navigation
  import opened Assembly
  import opened Build

  /** The folders named in a listing. */
  function Listed(s: seq<string>): set<string> {
    set f | f in s
  }

  /** Two blogs that agree on everything the build reads: the folders,
      their metadata and their bodies. */
  predicate SameSources(b1: map<string, ArticleFolder>, b2: map<string, ArticleFolder>) {
    && b1.Keys == b2.Keys
    && forall f :: f in b1 ==> b1[f].meta == b2[f].meta && b1[f].content == b2[f].content
  }

  lemma PageForSameSources(b1: map<string, ArticleFolder>, b2: map<string, ArticleFolder>,
                           t: Node, m: Node, nav: Node, f: string)
    requires SameSources(b1, b2)
    ensures PageFor(b1, t, m, nav, f) == PageFor(b2, t, m, nav, f)
  {
  }

  /** A page is made only for a folder with metadata and a body. */
  lemma PageForNeedsSources(blog: map<string, ArticleFolder>, t: Node, m: Node, nav: Node, f: string)
    ensures PageFor(blog, t, m, nav, f).Success? ==> HasMeta(blog, f) && blog[f].content.Some?
  {
    if HasMeta(blog, f) && blog[f].content.None? {
      ArticleNeedsBody(t, m, nav, MetaOf(blog, f).name, ContentOf(f, blog[f]));
    }
  }

  /** The page each folder would get, with the reading of its metadata
      and body already done. */
  type PageMaker = string -> Result<Node, BuildError>

  /** The pages of the article stage, read from `blog`. */
  function PagesOf(blog: map<string, ArticleFolder>, t: Node, m: Node, nav: Node): PageMaker {
    f => PageFor(blog, t, m, nav, f)
  }

  /** Every folder of `folders` gets a page. */
  predicate AllBuild(pages: PageMaker, folders: set<string>) {
    forall f :: f in folders ==> pages(f).Success?
  }

  /** The blog with the pages of the folders `done` written, and nothing
      else changed. */
  function Written(blog: map<string, ArticleFolder>, pages: PageMaker, done: set<string>): (r: map<string, ArticleFolder>)
    requires AllBuild(pages, done)
    ensures SameSources(r, blog)
  {
    map f | f in blog :: if f in done then blog[f].(page := Some(pages(f).value)) else blog[f]
  }

  /** The article loop with the pages given up front. */
  function WriteWith(blog: map<string, ArticleFolder>, pages: PageMaker, rest: seq<string>)
    : Outcome<map<string, ArticleFolder>>
    decreases |rest|
  {
    if rest == [] then Outcome(blog, None)
    else match pages(rest[0])
      case Failure(e) => Outcome(blog, Some(e))
      case Success(p) =>
        var next := if rest[0] in blog then WritePage(blog, rest[0], p) else blog;
        WriteWith(next, pages, rest[1..])
  }

  /** The article loop reads each folder's metadata and body from the blog
      as written so far; writing pages leaves those alone, so it makes the
      pages it would make from the blog it started with. */
  lemma {:induction false} WriteArticlesAsWriteWith(blog: map<string, ArticleFolder>, t: Node, m: Node, nav: Node,
                                                    current: map<string, ArticleFolder>, rest: seq<string>)
    requires SameSources(current, blog)
    ensures WriteArticlesFrom(current, t, m, nav, rest) == WriteWith(current, PagesOf(blog, t, m, nav), rest)
    decreases |rest|
  {
    if rest != [] {
      PageForSameSources(current, blog, t, m, nav, rest[0]);
      match PageFor(blog, t, m, nav, rest[0])
      case Failure(e) =>
      case Success(p) =>
        WriteArticlesAsWriteWith(blog, t, m, nav, WritePage(current, rest[0], p), rest[1..]);
    }
  }

  /** Writing the page of one more folder onto the blog with the folders
      `done` written gives the blog with both written. */
  lemma WrittenStep(blog: map<string, ArticleFolder>, pages: PageMaker, done: set<string>, f: string)
    requires AllBuild(pages, done) && pages(f).Success?
    ensures var w := Written(blog, pages, done);
      (if f in w then WritePage(w, f, pages(f).value) else w) == Written(blog, pages, done + {f})
  {
  }

  /** The loop, started after the folders `done` were written, succeeds
      exactly when every remaining folder gets a page, and then has written
      all of them. */
  lemma {:induction false} WriteWithSucceeds(blog: map<string, ArticleFolder>, pages: PageMaker,
                                             done: set<string>, rest: seq<string>)
    requires AllBuild(pages, done)
    ensures var o := WriteWith(Written(blog, pages, done), pages, rest);
      && (o.error.None? <==> AllBuild(pages, Listed(rest)))
      && (o.error.None? ==> o.state == Written(blog, pages, done + Listed(rest)))
    decreases |rest|
  {
    if rest == [] {
      assert Listed(rest) == {};
      assert done + Listed(rest) == done;
    } else {
      var f := rest[0];
      assert f in Listed(rest);
      if pages(f).Success? {
        WrittenStep(blog, pages, done, f);
        WriteWithSucceeds(blog, pages, done + {f}, rest[1..]);
        assert Listed(rest) == {f} + Listed(rest[1..]);
        assert done + {f} + Listed(rest[1..]) == done + Listed(rest);
      }
    }
  }

  /** The position in `rest` of the first folder whose page cannot be
      made, or `|rest|` when there is none. */
  function FirstFailing(pages: PageMaker, rest: seq<string>): (k: nat)
    ensures k <= |rest|
    ensures k < |rest| ==> pages(rest[k]).Failure?
    ensures AllBuild(pages, Listed(rest[..k]))
    decreases |rest|
  {
    if rest == [] then 0
    else if pages(rest[0]).Failure? then 0
    else
      var k := FirstFailing(pages, rest[1..]);
      assert rest[..k + 1] == [rest[0]] + rest[1..][..k];
      assert Listed(rest[..k + 1]) == {rest[0]} + Listed(rest[1..][..k]);
      1 + k
  }

  /** When the loop, started after the folders `done` were written, fails,
      it failed at the first remaining folder whose page could not be made,
      having written exactly the folders before it. */
  lemma {:induction false} WriteWithFails(blog: map<string, ArticleFolder>, pages: PageMaker,
                                          done: set<string>, rest: seq<string>)
    requires AllBuild(pages, done)
    ensures var o := WriteWith(Written(blog, pages, done), pages, rest);
      var k := FirstFailing(pages, rest);
      o.error.Some? ==>
        && k < |rest| && pages(rest[k]) == Failure(o.error.value)
        && o.state == Written(blog, pages, done + Listed(rest[..k]))
    decreases |rest|
  {
    if rest != [] {
      var f := rest[0];
      if pages(f).Failure? {
        assert rest[..0] == [] && Listed(rest[..0]) == {};
        assert done + Listed(rest[..0]) == done;
      } else {
        WrittenStep(blog, pages, done, f);
        WriteWithFails(blog, pages, done + {f}, rest[1..]);
        var k := FirstFailing(pages, rest[1..]);
        assert rest[..k + 1] == [f] + rest[1..][..k];
        assert Listed(rest[..k + 1]) == {f} + Listed(rest[1..][..k]);
        assert done + {f} + Listed(rest[1..][..k]) == done + Listed(rest[..k + 1]);
        if k < |rest[1..]| {
          assert rest[k + 1] == rest[1..][k];
        }
      }
    }
  }

  /** With a listing of distinct folders, writing the pages of the first
      `k` of them leaves every later one alone. */
  lemma WrittenPrefix(blog: map<string, ArticleFolder>, pages: PageMaker, listing: seq<string>, k: nat)
    requires k <= |listing| && AllBuild(pages, Listed(listing[..k]))
    requires forall i, j :: 0 <= i < j < |listing| ==> listing[i] != listing[j]
    requires forall i :: 0 <= i < |listing| ==> listing[i] in blog
    ensures var w := Written(blog, pages, Listed(listing[..k]));
      && (forall i :: 0 <= i < k ==>
            pages(listing[i]).Success? && w[listing[i]] == blog[listing[i]].(page := Some(pages(listing[i]).value)))
      && (forall i :: k <= i < |listing| ==> w[listing[i]] == blog[listing[i]])
  {
    forall i | 0 <= i < k
      ensures listing[i] in Listed(listing[..k])
    {
      assert listing[..k][i] == listing[i];
    }
  }

  /** A successful article stage writes, into every folder, the template
      with that article's name, the message of the day, the article's body
      and the navigation fragment at the anchors, and changes nothing else
      of the site. */
  lemma ArticlesBuilt(site: Site, listing: seq<string>)
    requires Lists(listing, site.blog.Keys)
    ensures var o := ArticlesStage(site, listing);
      o.error.None? ==>
        && site.template.Some? && site.motd.Some? && NavLinks(site.blog, listing, false).Success?
        && o.state == site.(blog := o.state.blog)
        && o.state.blog.Keys == site.blog.Keys
        && forall f :: f in site.blog ==>
             && HasMeta(site.blog, f) && site.blog[f].content.Some?
             && var page := AssembleArticle(site.template.value, site.motd.value, NavLinks(site.blog, listing, false).value,
                                            MetaOf(site.blog, f).name, Success(site.blog[f].content.value));
                page.Success? && o.state.blog[f] == site.blog[f].(page := Some(page.value))
  {
    var o := ArticlesStage(site, listing);
    if o.error.None? {
      var t, m, nav := site.template.value, site.motd.value, NavLinks(site.blog, listing, false).value;
      var pages := PagesOf(site.blog, t, m, nav);
      assert Written(site.blog, pages, {}) == site.blog;
      WriteArticlesAsWriteWith(site.blog, t, m, nav, site.blog, listing);
      WriteWithSucceeds(site.blog, pages, {}, listing);
      assert Listed(listing) == site.blog.Keys;
      assert {} + Listed(listing) == site.blog.Keys;
      forall f | f in site.blog
        ensures HasMeta(site.blog, f) && site.blog[f].content.Some?
      {
        assert pages(f).Success?;
        PageForNeedsSources(site.blog, t, m, nav, f);
      }
    }
  }

  /** A failing article stage has written no page when the template, the
      message of the day or the navigation fragment could not be had;
      otherwise it failed at some folder of the listing, has written the
      pages of the folders listed before it, and has written nothing into
      that folder or any folder listed after it. */
  lemma ArticlesStopAtFailure(site: Site, listing: seq<string>)
    requires Lists(listing, site.blog.Keys)
    ensures var o := ArticlesStage(site, listing);
      o.error.Some? ==>
        && o.state == site.(blog := o.state.blog)
        && o.state.blog.Keys == site.blog.Keys
        && ((site.template.None? || site.motd.None? || NavLinks(site.blog, listing, false).Failure?) ==> o.state == site)
        && ((site.template.Some? && site.motd.Some? && NavLinks(site.blog, listing, false).Success?) ==>
              var t, m, nav := site.template.value, site.motd.value, NavLinks(site.blog, listing, false).value;
              exists k :: 0 <= k < |listing|
                && PageFor(site.blog, t, m, nav, listing[k]) == Failure(o.error.value)
                && (forall i :: 0 <= i < k ==>
                      PageFor(site.blog, t, m, nav, listing[i]).Success?
                      && o.state.blog[listing[i]] == site.blog[listing[i]].(page := Some(PageFor(site.blog, t, m, nav, listing[i]).value)))
                && (forall i :: k <= i < |listing| ==> o.state.blog[listing[i]] == site.blog[listing[i]]))
  {
    var o := ArticlesStage(site, listing);
    if o.error.Some? && site.template.Some? && site.motd.Some? && NavLinks(site.blog, listing, false).Success? {
      var t, m, nav := site.template.value, site.motd.value, NavLinks(site.blog, listing, false).value;
      var pages := PagesOf(site.blog, t, m, nav);
      WriteArticlesAsWriteWith(site.blog, t, m, nav, site.blog, listing);
      WriteWithStops(site.blog, pages, listing);
      var k := FirstFailing(pages, listing);
      assert PageFor(site.blog, t, m, nav, listing[k]) == Failure(o.error.value);
      forall i | 0 <= i < k
        ensures PageFor(site.blog, t, m, nav, listing[i]).Success?
        ensures o.state.blog[listing[i]] == site.blog[listing[i]].(page := Some(PageFor(site.blog, t, m, nav, listing[i]).value))
      {
        assert pages(listing[i]) == PageFor(site.blog, t, m, nav, listing[i]);
      }
    }
  }

  /** The article loop with the pages given up front, over a listing of
      distinct folders, when it fails: it failed at the first folder whose
      page cannot be made, the folders before it have their pages and the
      rest are untouched. */
  lemma WriteWithStops(blog: map<string, ArticleFolder>, pages: PageMaker, listing: seq<string>)
    requires forall i, j :: 0 <= i < j < |listing| ==> listing[i] != listing[j]
    requires forall i :: 0 <= i < |listing| ==> listing[i] in blog
    requires WriteWith(blog, pages, listing).error.Some?
    ensures var o := WriteWith(blog, pages, listing);
      var k := FirstFailing(pages, listing);
      && k < |listing| && pages(listing[k]) == Failure(o.error.value)
      && o.state.Keys == blog.Keys
      && (forall i :: 0 <= i < k ==>
            pages(listing[i]).Success? && o.state[listing[i]] == blog[listing[i]].(page := Some(pages(listing[i]).value)))
      && (forall i :: k <= i < |listing| ==> o.state[listing[i]] == blog[listing[i]])
  {
    assert Written(blog, pages, {}) == blog;
    WriteWithFails(blog, pages, {}, listing);
    var k := FirstFailing(pages, listing);
    assert {} + Listed(listing[..k]) == Listed(listing[..k]);
    WrittenPrefix(blog, pages, listing, k);
  }

  // ---------------------------------------------------------------------
  // Anchors
  // ---------------------------------------------------------------------

  /** The template holds all four anchors an article page needs. */
  predicate HasAnchors(t: Node) {
    FindFirst(t, PageTitle).Some? && FindFirst(t, Alert).Some? && FindFirst(t, ArticleBody).Some? && FindFirst(t, Nav).Some?
  }

  /** A `nav-item` block holds no `div` with another class. */
  lemma NavItemFindsNoAnchor(m: Metadata, forHomepage: bool, q: Query)
    requires q.tag == "div" && q.cls.Some? && q.cls.value != "nav-item"
    ensures !Contains(NavItem(m, forHomepage), q)
  {
    var div := NavItem(m, forHomepage);
    var ul := div.children[0];
    var li := ul.children[0];
    var a := li.children[0];
    assert FindFirst(a.children[0], q) == None;
    assert FindAmong(a, 1, q) == None;
    assert FindAmong(a, 0, q) == None;
    assert FindAmong(li, 1, q) == None;
    assert FindAmong(li, 0, q) == None;
    assert FindAmong(ul, 1, q) == None;
    assert FindAmong(ul, 0, q) == None;
    assert FindAmong(div, 1, q) == None;
    assert FindAmong(div, 0, q) == None;
  }

  lemma {:induction false} FragmentFindsNone(items: seq<Node>, i: nat, q: Query)
    requires i <= |items|
    requires forall j :: 0 <= j < |items| ==> !Contains(items[j], q)
    ensures FindAmong(Fragment(items), i, q).None?
    decreases |items| - i
  {
    if i < |items| {
      assert Fragment(items).children[i] == items[i];
      FragmentFindsNone(items, i + 1, q);
    }
  }

  /** The navigation fragment holds none of the anchors, so appending it
      cannot divert a lookup. */
  lemma NavLinksAnchorFree(blog: map<string, ArticleFolder>, listing: seq<string>, forHomepage: bool)
    requires NavLinks(blog, listing, forHomepage).Success?
    ensures AnchorFree(NavLinks(blog, listing, forHomepage).value)
  {
    NavLinksShape(blog, listing, forHomepage);
    var frag := NavLinks(blog, listing, forHomepage).value;
    var items := frag.children;
    forall q | q in [PageTitle, Alert, ArticleBody, Nav]
      ensures !Contains(frag, q)
    {
      forall j | 0 <= j < |items| ensures !Contains(items[j], q) {
        NavItemFindsNoAnchor(MetaOf(blog, listing[j]), forHomepage, q);
      }
      FragmentFindsNone(items, 0, q);
    }
    assert !Contains(frag, Nav);
  }

  /** With anchor-free inserts, a template lacking any of the four anchors
      makes the article stage write no page at all, and fail as soon as
      there is a folder to build. */
  lemma ArticlesNoAnchorNoPages(site: Site, listing: seq<string>)
    requires site.template.Some? && site.motd.Some? && AnchorFree(site.motd.value)
    requires !HasAnchors(site.template.value)
    requires forall f :: f in site.blog && site.blog[f].content.Some? ==> AnchorFree(site.blog[f].content.value)
    ensures ArticlesStage(site, listing).state == site
    ensures listing != [] ==> ArticlesStage(site, listing).error.Some?
  {
    if NavLinks(site.blog, listing, false).Success? && listing != [] {
      var nav := NavLinks(site.blog, listing, false).value;
      NavLinksAnchorFree(site.blog, listing, false);
      var f := listing[0];
      if HasMeta(site.blog, f) {
        ArticleAnchors(site.template.value, site.motd.value, nav, MetaOf(site.blog, f).name, ContentOf(f, site.blog[f]));
      }
      assert PageFor(site.blog, site.template.value, site.motd.value, nav, f).Failure?;
    }
  }

  // ---------------------------------------------------------------------
  // Rebuilding
  // ---------------------------------------------------------------------

  lemma {:induction false} NavItemsFromSameSources(b1: map<string, ArticleFolder>, b2: map<string, ArticleFolder>,
                                                   rest: seq<string>, forHomepage: bool, acc: seq<Node>)
    requires SameSources(b1, b2)
    ensures NavItemsFrom(b1, rest, forHomepage, acc) == NavItemsFrom(b2, rest, forHomepage, acc)
    decreases |rest|
  {
    if rest != [] && HasMeta(b1, rest[0]) {
      NavItemsFromSameSources(b1, b2, rest[1..], forHomepage, acc + [NavItem(MetaOf(b1, rest[0]), forHomepage)]);
    }
  }

  /** Running the article stage again on what a successful run left
      behind writes the same pages: every page depends only on the
      template, the message of the day, the metadata and the bodies. */
  lemma ArticlesIdempotent(site: Site, listing: seq<string>)
    requires ArticlesStage(site, listing).error.None?
    ensures ArticlesStage(ArticlesStage(site, listing).state, listing) == ArticlesStage(site, listing)
  {
    var t, m := site.template.value, site.motd.value;
    var nav := NavLinks(site.blog, listing, false).value;
    var l := Listed(listing);
    var pages := PagesOf(site.blog, t, m, nav);
    assert Written(site.blog, pages, {}) == site.blog;
    WriteArticlesAsWriteWith(site.blog, t, m, nav, site.blog, listing);
    WriteWithSucceeds(site.blog, pages, {}, listing);
    assert {} + l == l;
    var w := Written(site.blog, pages, l);
    NavItemsFromSameSources(w, site.blog, listing, false, []);
    WriteArticlesAsWriteWith(site.blog, t, m, nav, w, listing);
    WriteWithSucceeds(site.blog, pages, l, listing);
    assert l + l == l;
  }

  // ---------------------------------------------------------------------
  // Where the links lead
  // ---------------------------------------------------------------------

  /** The path below the build root that a link on the homepage
      (`www/index.html`) leads to. */
  function FromHomepage(href: string): string {
    RootDir + href
  }

  /** The path below the build root that a link on the page of `folder`
      (`www/blog/<folder>/article.html`) leads to: a leading `../` climbs
      to the blog directory. */
  function FromArticlePage(folder: string, href: string): string {
    if ArticlePrefix <= href then BlogDir + href[|ArticlePrefix|..] else BlogDir + folder + "/" + href
  }

  /** Both kinds of link to `url` lead to the page written in the folder
      named `url`. */
  lemma LinkTargets(url: string, folder: string)
    ensures FromHomepage(Href(url, true)) == ArticlePagePath(url)
    ensures FromArticlePage(folder, Href(url, false)) == ArticlePagePath(url)
  {
    assert Href(url, false)[|ArticlePrefix|..] == url + LinkSuffix;
  }

  /** Distinct folders have their pages at distinct paths. */
  lemma ArticlePagePathInjective(f: string, g: string)
    ensures ArticlePagePath(f) == ArticlePagePath(g) <==> f == g
  {
    if ArticlePagePath(f) == ArticlePagePath(g) {
      var p := ArticlePagePath(f);
      assert |f| == |g|;
      assert f == p[|BlogDir|..|BlogDir| + |f|];
      assert g == ArticlePagePath(g)[|BlogDir|..|BlogDir| + |g|];
    }
  }

  /** A link to `url`, of either kind, leads to the page in the folder
      named `url`, and so to the page of `listed` exactly when `url` is
      `listed`. */
  lemma HrefTarget(url: string, listed: string, forHomepage: bool, folder: string)
    ensures var href := Href(url, forHomepage);
      var target := if forHomepage then FromHomepage(href) else FromArticlePage(folder, href);
      && target == ArticlePagePath(url)
      && (target == ArticlePagePath(listed) <==> url == listed)
  {
    LinkTargets(url, folder);
    ArticlePagePathInjective(url, listed);
  }

  /** Each link of the navigation fragment, on the homepage or on any
      article page, leads to the page in the folder named by the listed
      article's metadata `url`; that is the article's own page exactly
      when its folder is named after its `url`. */
  lemma NavLinkTargets(blog: map<string, ArticleFolder>, listing: seq<string>, forHomepage: bool, folder: string)
    requires forall i :: 0 <= i < |listing| ==> HasMeta(blog, listing[i])
    ensures NavLinks(blog, listing, forHomepage).Success?
    ensures var links := Links(NavLinks(blog, listing, forHomepage).value);
      && |links| == |listing|
      && forall i :: 0 <= i < |listing| ==>
           && links[i].href.Some?
           && var target := if forHomepage then FromHomepage(links[i].href.value)
                            else FromArticlePage(folder, links[i].href.value);
              && target == ArticlePagePath(MetaOf(blog, listing[i]).url)
              && (target == ArticlePagePath(listing[i]) <==> MetaOf(blog, listing[i]).url == listing[i])
  {
    NavLinksLinks(blog, listing, forHomepage);
    var links := Links(NavLinks(blog, listing, forHomepage).value);
    forall i | 0 <= i < |listing|
      ensures && links[i].href.Some?
              && var target := if forHomepage then FromHomepage(links[i].href.value)
                               else FromArticlePage(folder, links[i].href.value);
                 && target == ArticlePagePath(MetaOf(blog, listing[i]).url)
                 && (target == ArticlePagePath(listing[i]) <==> MetaOf(blog, listing[i]).url == listing[i])
    {
      assert links[i].href == Some(Href(MetaOf(blog, listing[i]).url, forHomepage));
      HrefTarget(MetaOf(blog, listing[i]).url, listing[i], forHomepage, folder);
    }
  }

  // ---------------------------------------------------------------------
  // Folder names
  // ---------------------------------------------------------------------

  /** A rename to a free name keeps every folder, under one name each. */
  lemma RenamedKeepsFolders(blog: map<string, ArticleFolder>, from: string, to: string)
    requires from in blog && to !in blog
    ensures Renamed(blog, from, to).Keys == blog.Keys - {from} + {to}
    ensures |Renamed(blog, from, to)| == |blog|
    ensures Renamed(blog, from, to).Values == blog.Values
    ensures to in Renamed(blog, from, to) && Renamed(blog, from, to)[to] == blog[from]
    ensures forall k :: k in blog && k != from ==> k in Renamed(blog, from, to) && Renamed(blog, from, to)[k] == blog[k]
  {
    var r := Renamed(blog, from, to);
    assert r.Keys == blog.Keys - {from} + {to};
    assert |blog.Keys - {from}| == |blog.Keys| - 1;
    assert |r.Keys| == |blog.Keys - {from}| + 1;
    forall v | v in blog.Values ensures v in r.Values {
      var k :| k in blog && blog[k] == v;
      if k == from {
        assert r[to] == v;
      } else {
        assert r[k] == v;
      }
    }
    forall v | v in r.Values ensures v in blog.Values {
      var k :| k in r && r[k] == v;
      if k == to {
        assert blog[from] == v;
      } else {
        assert blog[k] == v;
      }
    }
  }

  /** `after` holds the folders of `before`, each moved to the name
      `where` gives it: every folder lands on a name of its own, and every
      name of `after` holds one of them. */
  predicate Relocation(before: map<string, ArticleFolder>, after: map<string, ArticleFolder>, where: map<string, string>) {
    && where.Keys == before.Keys
    && where.Values == after.Keys
    && (forall f, g :: f in where && g in where && f != g ==> where[f] != where[g])
    && (forall f :: f in where ==> where[f] in after && after[where[f]] == before[f])
  }

  /** `after` holds the folders of `before`, each moved to a name of its
      own. */
  ghost predicate Relocated(before: map<string, ArticleFolder>, after: map<string, ArticleFolder>) {
    exists where :: Relocation(before, after, where)
  }

  /** Leaving every folder where it is. */
  lemma RelocationStay(blog: map<string, ArticleFolder>)
    ensures Relocated(blog, blog)
  {
    var where := map f | f in blog :: f;
    forall k | k in blog ensures k in where.Values {
      assert where[k] == k;
    }
    assert Relocation(blog, blog, where);
  }

  /** Where each folder of `blog` ends up when `from` is first renamed to
      `to` and the result then relocated by `w`. */
  function ThroughRename(blog: map<string, ArticleFolder>, from: string, to: string, w: map<string, string>)
    : map<string, string>
    requires to in w && forall f :: f in blog && f != from ==> f in w
  {
    map f | f in blog :: if f == from then w[to] else w[f]
  }

  /** Every name after the rename and the relocation holds a folder of
      `blog`. */
  lemma ThroughRenameOnto(blog: map<string, ArticleFolder>, from: string, to: string,
                          after: map<string, ArticleFolder>, w: map<string, string>)
    requires from in blog && to !in blog
    requires Relocation(Renamed(blog, from, to), after, w)
    ensures to in w && forall f :: f in blog && f != from ==> f in w
    ensures ThroughRename(blog, from, to, w).Values == after.Keys
  {
    var r := Renamed(blog, from, to);
    assert r.Keys == blog.Keys - {from} + {to};
    var where := ThroughRename(blog, from, to, w);
    forall k | k in after ensures k in where.Values {
      assert k in w.Values;
      var g :| g in w && w[g] == k;
      if g == to {
        assert where[from] == k;
      } else {
        assert g in blog && where[g] == k;
      }
    }
    forall k | k in where.Values ensures k in after {
      var f :| f in where && where[f] == k;
      var f' := if f == from then to else f;
      assert k == w[f'] && w[f'] in w.Values;
    }
  }

  /** Distinct folders of `blog` land on distinct names. */
  lemma ThroughRenameInjective(blog: map<string, ArticleFolder>, from: string, to: string,
                               after: map<string, ArticleFolder>, w: map<string, string>)
    requires from in blog && to !in blog
    requires Relocation(Renamed(blog, from, to), after, w)
    requires to in w && forall f :: f in blog && f != from ==> f in w
    ensures var where := ThroughRename(blog, from, to, w);
      forall f, g :: f in where && g in where && f != g ==> where[f] != where[g]
  {
    var where := ThroughRename(blog, from, to, w);
    forall f, g | f in where && g in where && f != g ensures where[f] != where[g] {
      var f' := if f == from then to else f;
      var g' := if g == from then to else g;
      assert where[f] == w[f'] && where[g] == w[g'];
      assert f' != g';
    }
  }

  /** Each folder of `blog` is found, unchanged, where it lands. */
  lemma ThroughRenameKeeps(blog: map<string, ArticleFolder>, from: string, to: string,
                           after: map<string, ArticleFolder>, w: map<string, string>)
    requires from in blog && to !in blog
    requires Relocation(Renamed(blog, from, to), after, w)
    requires to in w && forall f :: f in blog && f != from ==> f in w
    ensures var where := ThroughRename(blog, from, to, w);
      forall f :: f in where ==> where[f] in after && after[where[f]] == blog[f]
  {
    var r := Renamed(blog, from, to);
    var where := ThroughRename(blog, from, to, w);
    forall f | f in where ensures where[f] in after && after[where[f]] == blog[f] {
      if f == from {
        assert r[to] == blog[from];
      } else {
        assert r[f] == blog[f];
      }
    }
  }

  /** A rename to a free name, followed by a relocation, is a relocation. */
  lemma RelocationAfterRename(blog: map<string, ArticleFolder>, from: string, to: string,
                              after: map<string, ArticleFolder>, w: map<string, string>)
    requires from in blog && to !in blog
    requires Relocation(Renamed(blog, from, to), after, w)
    ensures to in w && forall f :: f in blog && f != from ==> f in w
    ensures Relocation(blog, after, ThroughRename(blog, from, to, w))
  {
    ThroughRenameOnto(blog, from, to, after, w);
    ThroughRenameInjective(blog, from, to, after, w);
    ThroughRenameKeeps(blog, from, to, after, w);
  }

  /** A rename to a free name, followed by any relocation, leaves the
      folders relocated. */
  lemma RelocatedAfterRename(blog: map<string, ArticleFolder>, from: string, to: string, after: map<string, ArticleFolder>)
    requires from in blog && to !in blog
    requires Relocated(Renamed(blog, from, to), after)
    ensures Relocated(blog, after)
  {
    var w :| Relocation(Renamed(blog, from, to), after, w);
    RelocationAfterRename(blog, from, to, after, w);
  }

  /** Reconciling folder names, however it ends, keeps the number of
      folders and the contents they hold. */
  lemma {:induction false} ReconcileKeepsContents(blog: map<string, ArticleFolder>, rest: seq<string>)
    ensures |ReconcileFrom(blog, rest).state| == |blog|
    ensures ReconcileFrom(blog, rest).state.Values == blog.Values
    decreases |rest|
  {
    if rest != [] && HasMeta(blog, rest[0]) {
      var url := MetaOf(blog, rest[0]).url;
      if url == rest[0] {
        ReconcileKeepsContents(blog, rest[1..]);
      } else if url !in blog {
        RenamedKeepsFolders(blog, rest[0], url);
        ReconcileKeepsContents(Renamed(blog, rest[0], url), rest[1..]);
      }
    }
  }

  /** Reconciling folder names, however it ends, moves every folder,
      unchanged, to a name of its own. */
  lemma {:induction false} ReconcileRelocates(blog: map<string, ArticleFolder>, rest: seq<string>)
    ensures Relocated(blog, ReconcileFrom(blog, rest).state)
    decreases |rest|
  {
    var o := ReconcileFrom(blog, rest);
    if rest != [] && HasMeta(blog, rest[0]) && MetaOf(blog, rest[0]).url == rest[0] {
      assert o == ReconcileFrom(blog, rest[1..]);
      ReconcileRelocates(blog, rest[1..]);
    } else if rest != [] && HasMeta(blog, rest[0]) && MetaOf(blog, rest[0]).url !in blog {
      var url := MetaOf(blog, rest[0]).url;
      assert o == ReconcileFrom(Renamed(blog, rest[0], url), rest[1..]);
      ReconcileRelocates(Renamed(blog, rest[0], url), rest[1..]);
      RelocatedAfterRename(blog, rest[0], url, o.state);
    } else {
      assert o.state == blog;
      RelocationStay(blog);
    }
  }

  /** Reconciling folder names, however it ends, loses no folder and
      duplicates none: every folder is found, unchanged, under exactly one
      name, every name holds one of them, and there are as many folders,
      holding the same contents, as before. */
  lemma ReconcileKeepsFolders(blog: map<string, ArticleFolder>, rest: seq<string>)
    ensures Relocated(blog, ReconcileFrom(blog, rest).state)
    ensures |ReconcileFrom(blog, rest).state| == |blog|
    ensures ReconcileFrom(blog, rest).state.Values == blog.Values
  {
    ReconcileRelocates(blog, rest);
    ReconcileKeepsContents(blog, rest);
  }

  /** Every folder is either still to be visited or already named after
      its metadata `url`. */
  predicate NamedOrPending(blog: map<string, ArticleFolder>, rest: seq<string>) {
    && (forall i, j :: 0 <= i < j < |rest| ==> rest[i] != rest[j])
    && (forall i :: 0 <= i < |rest| ==> rest[i] in blog)
    && (forall k :: k in blog ==> k in rest || (HasMeta(blog, k) && MetaOf(blog, k).url == k))
  }

  lemma {:induction false} ReconcileFromNamesMatch(blog: map<string, ArticleFolder>, rest: seq<string>)
    requires NamedOrPending(blog, rest)
    ensures var o := ReconcileFrom(blog, rest);
      o.error.None? ==> forall k :: k in o.state ==> HasMeta(o.state, k) && MetaOf(o.state, k).url == k
    decreases |rest|
  {
    if rest == [] {
    } else if HasMeta(blog, rest[0]) {
      var f := rest[0];
      var url := MetaOf(blog, f).url;
      forall i | 0 <= i < |rest[1..]| ensures rest[1..][i] != f && rest[1..][i] in rest {
        assert rest[1..][i] == rest[i + 1];
      }
      forall k | k in rest && k != f ensures k in rest[1..] {
        var i :| 0 <= i < |rest| && rest[i] == k;
        assert rest[1..][i - 1] == k;
      }
      if url == f {
        ReconcileFromNamesMatch(blog, rest[1..]);
      } else if url !in blog {
        var next := Renamed(blog, f, url);
        assert NamedOrPending(next, rest[1..]);
        ReconcileFromNamesMatch(next, rest[1..]);
      }
    }
  }

  /** After a successful reconciliation every folder is named after its
      metadata `url`. */
  lemma ReconcileNamesMatch(blog: map<string, ArticleFolder>, listing: seq<string>)
    requires Lists(listing, blog.Keys)
    ensures var o := ReconcileFrom(blog, listing);
      o.error.None? ==> forall k :: k in o.state ==> HasMeta(o.state, k) && MetaOf(o.state, k).url == k
  {
    ReconcileFromNamesMatch(blog, listing);
  }

  /** Every folder has metadata, no two folders share a `url`, and a
      folder's `url`, when it differs from its name, names no folder. */
  predicate Reconcilable(blog: map<string, ArticleFolder>) {
    && (forall f :: f in blog ==> HasMeta(blog, f))
    && (forall f, g {:trigger MetaOf(blog, f), MetaOf(blog, g)} ::
          f in blog && g in blog && f != g ==> MetaOf(blog, f).url != MetaOf(blog, g).url)
    && (forall f {:trigger MetaOf(blog, f)} :: f in blog && MetaOf(blog, f).url != f ==> MetaOf(blog, f).url !in blog)
  }

  /** The blog part-way through reconciliation: the folders of `done` sit
      at their `url`, every other folder at its own name, and every name
      in use is one of these. */
  predicate MovedState(blog: map<string, ArticleFolder>, done: set<string>, current: map<string, ArticleFolder>)
    requires Reconcilable(blog)
  {
    && (forall f :: f in blog && f !in done ==> f in current && current[f] == blog[f])
    && (forall f :: f in done ==> f in blog && MetaOf(blog, f).url in current && current[MetaOf(blog, f).url] == blog[f])
    && (forall k :: k in current ==> (k in blog && k !in done) || (exists f :: f in done && MetaOf(blog, f).url == k))
  }

  /** Visiting a folder not yet moved moves it: it keeps its name when
      that is its `url`, and is renamed to its `url`, a free name,
      otherwise. */
  lemma ReconcileStep(blog: map<string, ArticleFolder>, done: set<string>, current: map<string, ArticleFolder>, f: string)
    requires Reconcilable(blog) && f in blog && f !in done && MovedState(blog, done, current)
    ensures HasMeta(current, f) && MetaOf(current, f) == MetaOf(blog, f)
    ensures MetaOf(blog, f).url == f ==> MovedState(blog, done + {f}, current)
    ensures MetaOf(blog, f).url != f ==>
      && MetaOf(blog, f).url !in current
      && MovedState(blog, done + {f}, Renamed(current, f, MetaOf(blog, f).url))
  {
    var url := MetaOf(blog, f).url;
    if url == f {
      forall k | k in current
        ensures (k in blog && k !in done + {f}) || (exists g :: g in done + {f} && MetaOf(blog, g).url == k)
      {
        if k == f {
          assert f in done + {f} && MetaOf(blog, f).url == k;
        }
      }
    } else {
      var next := Renamed(current, f, url);
      forall k | k in next
        ensures (k in blog && k !in done + {f}) || (exists g :: g in done + {f} && MetaOf(blog, g).url == k)
      {
        if k == url {
          assert f in done + {f} && MetaOf(blog, f).url == k;
        }
      }
      forall g | g in done
        ensures MetaOf(blog, g).url in next && next[MetaOf(blog, g).url] == blog[g]
      {
        assert MetaOf(blog, g).url != f;
      }
    }
  }

  /** Visiting the folders `rest` after the folders `done` were moved
      succeeds and moves them all. */
  lemma {:induction false} ReconcileFromMoved(blog: map<string, ArticleFolder>, done: set<string>,
                                              current: map<string, ArticleFolder>, rest: seq<string>)
    requires Reconcilable(blog) && MovedState(blog, done, current)
    requires forall i, j :: 0 <= i < j < |rest| ==> rest[i] != rest[j]
    requires forall i :: 0 <= i < |rest| ==> rest[i] in blog && rest[i] !in done
    ensures var o := ReconcileFrom(current, rest);
      && o.error.None?
      && forall f :: f in done || f in rest ==>
           f in blog && MetaOf(blog, f).url in o.state && o.state[MetaOf(blog, f).url] == blog[f]
    decreases |rest|
  {
    if rest != [] {
      var f := rest[0];
      ReconcileStep(blog, done, current, f);
      var url := MetaOf(blog, f).url;
      var next := if url == f then current else Renamed(current, f, url);
      assert ReconcileFrom(current, rest) == ReconcileFrom(next, rest[1..]);
      forall i | 0 <= i < |rest[1..]| ensures rest[1..][i] in blog && rest[1..][i] !in done + {f} {
        assert rest[1..][i] == rest[i + 1];
      }
      ReconcileFromMoved(blog, done + {f}, next, rest[1..]);
      forall g | g in rest ensures g == f || g in rest[1..] {
        var i :| 0 <= i < |rest| && rest[i] == g;
        if i > 0 {
          assert rest[1..][i - 1] == g;
        }
      }
    }
  }

  /** When every folder has metadata, the `url`s are distinct and no
      mismatched `url` names an existing folder, reconciliation succeeds:
      every folder ends up at its `url` with its contents, so a folder that
      already matched stays where it was, and (by ReconcileNamesMatch and
      ReconcileKeepsFolders) these are all the folders there are. */
  lemma ReconcileSucceeds(blog: map<string, ArticleFolder>, listing: seq<string>)
    requires Lists(listing, blog.Keys) && Reconcilable(blog)
    ensures var o := ReconcileFrom(blog, listing);
      && o.error.None?
      && (forall f :: f in blog ==> MetaOf(blog, f).url in o.state && o.state[MetaOf(blog, f).url] == blog[f])
      && (forall f :: f in blog && MetaOf(blog, f).url == f ==> f in o.state && o.state[f] == blog[f])
  {
    ReconcileFromMoved(blog, {}, blog, listing);
  }

  // ---------------------------------------------------------------------
  // Homepage and the whole build
  // ---------------------------------------------------------------------

  /** The homepage stage writes `index.html` and nothing else: on success
      it is the assembled homepage, on failure nothing is written. */
  lemma HomepageWritten(site: Site, listing: seq<string>)
    ensures var o := HomepageStage(site, listing);
      && o.state == site.(homepage := o.state.homepage)
      && (o.error.Some? ==> o.state == site)
      && (o.error.None? ==>
            && site.template.Some? && site.motd.Some? && NavLinks(site.blog, listing, true).Success?
            && AssembleHomepage(site.template.value, site.motd.value, NavLinks(site.blog, listing, true).value,
                                IndexContent(site)).Success?
            && o.state.homepage == Some(AssembleHomepage(site.template.value, site.motd.value,
                                        NavLinks(site.blog, listing, true).value, IndexContent(site)).value)
            && site.indexContent.Some?)
  {
  }

  /** When every folder has metadata and a body, the template has its four
      anchors and the inserts hold none, the article stage succeeds: every
      folder gets its page and nothing the build reads changes. */
  lemma ArticlesSucceed(site: Site, listing: seq<string>)
    requires Lists(listing, site.blog.Keys) && site.template.Some? && site.motd.Some?
    requires HasAnchors(site.template.value) && AnchorFree(site.motd.value)
    requires forall f :: f in site.blog ==>
      HasMeta(site.blog, f) && site.blog[f].content.Some? && AnchorFree(site.blog[f].content.value)
    ensures var o := ArticlesStage(site, listing);
      && o.error.None?
      && o.state == site.(blog := o.state.blog)
      && SameSources(o.state.blog, site.blog)
      && forall f :: f in site.blog ==> o.state.blog[f].page.Some?
  {
    var t, m := site.template.value, site.motd.value;
    NavLinksShape(site.blog, listing, false);
    var nav := NavLinks(site.blog, listing, false).value;
    NavLinksAnchorFree(site.blog, listing, false);
    var pages := PagesOf(site.blog, t, m, nav);
    forall f | f in Listed(listing) ensures pages(f).Success? {
      var c := site.blog[f].content.value;
      ArticleAnchors(t, m, nav, MetaOf(site.blog, f).name, Success(c));
    }
    assert Written(site.blog, pages, {}) == site.blog;
    WriteArticlesAsWriteWith(site.blog, t, m, nav, site.blog, listing);
    WriteWithSucceeds(site.blog, pages, {}, listing);
    assert {} + Listed(listing) == site.blog.Keys;
  }

  /** When the template also has its icon with a link and an image and
      `index.md` is there and holds no anchor, the homepage stage succeeds. */
  lemma HomepageSucceeds(site: Site, listing: seq<string>)
    requires Lists(listing, site.blog.Keys) && site.template.Some? && site.motd.Some? && site.indexContent.Some?
    requires HasAnchors(site.template.value) && HasIcon(site.template.value)
    requires AnchorFree(site.motd.value) && AnchorFree(site.indexContent.value)
    requires forall f :: f in site.blog ==> HasMeta(site.blog, f)
    ensures HomepageStage(site, listing).error.None?
  {
    var t, m := site.template.value, site.motd.value;
    NavLinksShape(site.blog, listing, true);
    var nav := NavLinks(site.blog, listing, true).value;
    NavLinksAnchorFree(site.blog, listing, true);
    HomepageAfterIcon(t, m, nav, IndexContent(site));
    IconEditsKeepFinds(t, Alert);
    IconEditsKeepFinds(t, PageTitle);
    IconEditsKeepFinds(t, ArticleBody);
    IconEditsKeepFinds(t, Nav);
    HomepageAnchors(IconEdited(t), m, nav, IndexContent(site));
  }

  lemma ReconcilableSameSources(b1: map<string, ArticleFolder>, b2: map<string, ArticleFolder>)
    requires SameSources(b1, b2) && Reconcilable(b2)
    ensures Reconcilable(b1)
  {
    assert forall f :: f in b1 ==> MetaOf(b1, f) == MetaOf(b2, f);
  }

  /** A build of a well-formed site succeeds: the homepage is written, and
      every article, with its page written, ends up in the folder named by
      its metadata `url`, which is then the name of every folder. */
  lemma BuildSucceeds(site: Site, listing: seq<string>)
    requires Lists(listing, site.blog.Keys)
    requires site.template.Some? && site.motd.Some? && site.indexContent.Some?
    requires HasAnchors(site.template.value) && HasIcon(site.template.value)
    requires AnchorFree(site.motd.value) && AnchorFree(site.indexContent.value)
    requires forall f :: f in site.blog ==> site.blog[f].content.Some? && AnchorFree(site.blog[f].content.value)
    requires Reconcilable(site.blog)
    ensures var o := BuildSpec(site, listing);
      && o.error.None?
      && o.state.homepage.Some?
      && (forall f :: f in site.blog ==>
            && MetaOf(site.blog, f).url in o.state.blog
            && var moved := o.state.blog[MetaOf(site.blog, f).url];
               moved.meta == site.blog[f].meta && moved.content == site.blog[f].content && moved.page.Some?)
      && (forall k :: k in o.state.blog ==> HasMeta(o.state.blog, k) && MetaOf(o.state.blog, k).url == k)
  {
    ArticlesSucceed(site, listing);
    var a := ArticlesStage(site, listing).state;
    HomepageSucceeds(a, listing);
    HomepageWritten(a, listing);
    var h := HomepageStage(a, listing).state;
    assert h.blog == a.blog;
    ReconcilableSameSources(a.blog, site.blog);
    ReconcileSucceeds(a.blog, listing);
    ReconcileNamesMatch(a.blog, listing);
  }
}
