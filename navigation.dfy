/**
 * The navigation builder: one `nav-item` block per article folder, in
 * listing order, each holding a link to the article whose target depends on
 * whether the links go into the homepage or into an article page.
 */
module Navigation {
  import opened Wrappers
  import opened Html
  import opened Content

  const HomepagePrefix: string := "blog/"
  const ArticlePrefix: string := "../"
  const LinkSuffix: string := "/article.html"

  /** The link target for the article with slug `url`. */
  function Href(url: string, forHomepage: bool): string {
    (if forHomepage then HomepagePrefix else ArticlePrefix) + url + LinkSuffix
  }

  /** Reads the slug back out of a link target of the given kind. */
  function UrlOfHref(href: string, forHomepage: bool): Option<string> {
    var prefix := if forHomepage then HomepagePrefix else ArticlePrefix;
    if |href| >= |prefix| + |LinkSuffix| && href[..|prefix|] == prefix && href[|href| - |LinkSuffix|..] == LinkSuffix
    then Some(href[|prefix|..|href| - |LinkSuffix|])
    else None
  }

  /** The slug can be read back from every link target, so distinct slugs
      give distinct targets. */
  lemma {:induction false} HrefRoundTrip(url: string, forHomepage: bool)
    ensures UrlOfHref(Href(url, forHomepage), forHomepage) == Some(url)
  {
    var prefix := if forHomepage then HomepagePrefix else ArticlePrefix;
    var h := Href(url, forHomepage);
    assert h == prefix + url + LinkSuffix;
    assert h[..|prefix|] == prefix;
    assert h[|h| - |LinkSuffix|..] == LinkSuffix;
    assert h[|prefix|..|h| - |LinkSuffix|] == url;
  }

  lemma HrefInjective(u1: string, u2: string, forHomepage: bool)
    requires Href(u1, forHomepage) == Href(u2, forHomepage)
    ensures u1 == u2
  {
    HrefRoundTrip(u1, forHomepage);
    HrefRoundTrip(u2, forHomepage);
  }

  /** The link the navigation block for an article shows. */
  function LinkTo(m: Metadata, forHomepage: bool): Link {
    Link(Some(Href(m.url, forHomepage)), m.name)
  }

  /** `<div class="nav-item"><ul><li><a href=...>name</a></li></ul></div>`.
      The `li` is appended to the `ul` twice in the script; the library moves
      an already attached node, so the `ul` holds it once. */
  function NavItem(m: Metadata, forHomepage: bool): Node {
    Element("div", ["nav-item"], map[], [
      Element("ul", [], map[], [
        Element("li", [], map[], [
          Element("a", [], map["href" := Href(m.url, forHomepage)], [Text(m.name)])])])])
  }

  /** The blocks for the folders `rest`, after the blocks `acc` already
      built; the first folder without usable metadata stops the build. */
  function NavItemsFrom(blog: map<string, ArticleFolder>, rest: seq<string>, forHomepage: bool, acc: seq<Node>)
    : Result<seq<Node>, BuildError>
    decreases |rest|
  {
    if rest == [] then Success(acc)
    else if !HasMeta(blog, rest[0]) then Failure(MetadataError(rest[0]))
    else NavItemsFrom(blog, rest[1..], forHomepage, acc + [NavItem(MetaOf(blog, rest[0]), forHomepage)])
  }

  /** The navigation fragment for the folders in `listing`. */
  function NavLinks(blog: map<string, ArticleFolder>, listing: seq<string>, forHomepage: bool): Result<Node, BuildError> {
    match NavItemsFrom(blog, listing, forHomepage, [])
    case Success(items) => Success(Fragment(items))
    case Failure(e) => Failure(e)
  }

  /** `get_article_links`: builds the fragment one `nav-item` block per
      listed folder, appending each into a growing document. */
  method GetArticleLinks(blog: map<string, ArticleFolder>, listing: seq<string>, forHomepage: bool)
    returns (r: Result<Node, BuildError>)
    ensures r == NavLinks(blog, listing, forHomepage)
  {
    var soup := new Soup(Fragment([]));
    var i := 0;
    while i < |listing|
      invariant 0 <= i <= |listing|
      invariant soup.root.Element? && soup.root == Fragment(soup.root.children)
      invariant NavItemsFrom(blog, listing, forHomepage, [])
             == NavItemsFrom(blog, listing[i..], forHomepage, soup.root.children)
    {
      var page := listing[i];
      assert listing[i..][0] == page && listing[i..][1..] == listing[i + 1..];
      if !HasMeta(blog, page) {
        return Failure(MetadataError(page));
      }
      var metadata := blog[page].meta.value;
      var newA := Element("a", [], map["href" := Href(metadata.url, forHomepage)], [Text(metadata.name)]);
      var newLi := Element("li", [], map[], [newA]);
      var newUl := Element("ul", [], map[], [newLi]);
      var newDiv := Element("div", ["nav-item"], map[], [newUl]);
      soup.Append([], newDiv);
      i := i + 1;
    }
    assert listing[i..] == [];
    return Success(soup.root);
  }

  /** The fragment exists exactly when every listed folder has metadata; it
      then holds one `nav-item` block per folder, in listing order, built
      from that folder's metadata; otherwise the error names the first
      folder without it. */
  lemma {:induction false} NavItemsFromShape(blog: map<string, ArticleFolder>, rest: seq<string>, forHomepage: bool, acc: seq<Node>)
    ensures NavItemsFrom(blog, rest, forHomepage, acc).Success?
        <==> forall i :: 0 <= i < |rest| ==> HasMeta(blog, rest[i])
    ensures NavItemsFrom(blog, rest, forHomepage, acc).Success? ==>
      var items := NavItemsFrom(blog, rest, forHomepage, acc).value;
      && |items| == |acc| + |rest|
      && items[..|acc|] == acc
      && forall i :: 0 <= i < |rest| ==> items[|acc| + i] == NavItem(MetaOf(blog, rest[i]), forHomepage)
    ensures NavItemsFrom(blog, rest, forHomepage, acc).Failure? ==>
      exists k :: 0 <= k < |rest| && !HasMeta(blog, rest[k]) && (forall j :: 0 <= j < k ==> HasMeta(blog, rest[j]))
        && NavItemsFrom(blog, rest, forHomepage, acc).error == MetadataError(rest[k])
    decreases |rest|
  {
    if rest != [] && HasMeta(blog, rest[0]) {
      var acc' := acc + [NavItem(MetaOf(blog, rest[0]), forHomepage)];
      NavItemsFromShape(blog, rest[1..], forHomepage, acc');
      var r := NavItemsFrom(blog, rest, forHomepage, acc);
      assert r == NavItemsFrom(blog, rest[1..], forHomepage, acc');
      if r.Success? {
        var items := r.value;
        assert items[..|acc'|] == acc';
        assert items[..|acc|] == acc' [..|acc|];
        forall i | 0 <= i < |rest|
          ensures items[|acc| + i] == NavItem(MetaOf(blog, rest[i]), forHomepage)
        {
          if i == 0 {
            assert items[|acc|] == acc'[|acc|];
          } else {
            assert rest[1..][i - 1] == rest[i];
            assert items[|acc'| + (i - 1)] == NavItem(MetaOf(blog, rest[1..][i - 1]), forHomepage);
          }
        }
      } else {
        var k :| 0 <= k < |rest[1..]| && !HasMeta(blog, rest[1..][k]) && (forall j :: 0 <= j < k ==> HasMeta(blog, rest[1..][j]))
          && r.error == MetadataError(rest[1..][k]);
        assert rest[k + 1] == rest[1..][k];
        assert forall j :: 0 <= j < k + 1 ==> HasMeta(blog, rest[j]) by {
          forall j | 0 <= j < k + 1 ensures HasMeta(blog, rest[j]) {
            if j > 0 { assert rest[j] == rest[1..][j - 1]; }
          }
        }
      }
      assert (forall i :: 0 <= i < |rest| ==> HasMeta(blog, rest[i]))
         <==> (forall i :: 0 <= i < |rest[1..]| ==> HasMeta(blog, rest[1..][i])) by {
        if forall i :: 0 <= i < |rest[1..]| ==> HasMeta(blog, rest[1..][i]) {
          forall i | 0 <= i < |rest| ensures HasMeta(blog, rest[i]) {
            if i > 0 { assert rest[i] == rest[1..][i - 1]; }
          }
        }
      }
    }
  }

  /** The navigation fragment, when it exists, is a document holding exactly
      one `nav-item` block per listed folder, in listing order. */
  lemma NavLinksShape(blog: map<string, ArticleFolder>, listing: seq<string>, forHomepage: bool)
    ensures NavLinks(blog, listing, forHomepage).Success? <==> forall i :: 0 <= i < |listing| ==> HasMeta(blog, listing[i])
    ensures NavLinks(blog, listing, forHomepage).Success? ==>
      var frag := NavLinks(blog, listing, forHomepage).value;
      && frag == Fragment(frag.children)
      && |frag.children| == |listing|
      && forall i :: 0 <= i < |listing| ==>
           && frag.children[i] == NavItem(MetaOf(blog, listing[i]), forHomepage)
           && Matches(frag.children[i], Query("div", Some("nav-item")))
    ensures NavLinks(blog, listing, forHomepage).Failure? ==>
      exists k :: 0 <= k < |listing| && !HasMeta(blog, listing[k]) && (forall j :: 0 <= j < k ==> HasMeta(blog, listing[j]))
        && NavLinks(blog, listing, forHomepage).error == MetadataError(listing[k])
  {
    NavItemsFromShape(blog, listing, forHomepage, []);
    var r := NavItemsFrom(blog, listing, forHomepage, []);
    if r.Success? {
      assert NavLinks(blog, listing, forHomepage) == Success(Fragment(r.value));
      forall i | 0 <= i < |listing|
        ensures r.value[i] == NavItem(MetaOf(blog, listing[i]), forHomepage)
        ensures Matches(r.value[i], Query("div", Some("nav-item")))
      {
        assert r.value[0 + i] == NavItem(MetaOf(blog, listing[i]), forHomepage);
        NavItemMatches(MetaOf(blog, listing[i]), forHomepage);
      }
    } else {
      assert NavLinks(blog, listing, forHomepage) == Failure(r.error);
    }
  }

  lemma NavItemMatches(m: Metadata, forHomepage: bool)
    ensures Matches(NavItem(m, forHomepage), Query("div", Some("nav-item")))
  {
  }

  /** A `nav-item` block shows exactly one link: to the article's slug, with
      the article's name as its text. */
  lemma NavItemLinks(m: Metadata, forHomepage: bool)
    ensures Links(NavItem(m, forHomepage)) == [LinkTo(m, forHomepage)]
  {
    var div := NavItem(m, forHomepage);
    var ul := div.children[0];
    var li := ul.children[0];
    var a := li.children[0];
    assert TextOf(a) == m.name by {
      assert TextAmong(a, 1) == "";
      assert TextOf(a.children[0]) == m.name;
    }
    assert Links(a.children[0]) == [];
    assert LinksAmong(a, 1) == [];
    assert Links(a) == [LinkTo(m, forHomepage)];
    assert LinksAmong(li, 1) == [];
    assert Links(li) == [LinkTo(m, forHomepage)];
    assert LinksAmong(ul, 1) == [];
    assert Links(ul) == [LinkTo(m, forHomepage)];
    assert LinksAmong(div, 1) == [];
  }

  lemma {:induction false} LinksAmongItems(frag: Node, metas: seq<Metadata>, forHomepage: bool, i: nat)
    requires frag.Element? && |frag.children| == |metas| && i <= |metas|
    requires forall j :: 0 <= j < |metas| ==> frag.children[j] == NavItem(metas[j], forHomepage)
    ensures |LinksAmong(frag, i)| == |metas| - i
    ensures forall j :: i <= j < |metas| ==> LinksAmong(frag, i)[j - i] == LinkTo(metas[j], forHomepage)
    decreases |metas| - i
  {
    if i < |metas| {
      NavItemLinks(metas[i], forHomepage);
      LinksAmongItems(frag, metas, forHomepage, i + 1);
      assert LinksAmong(frag, i) == [LinkTo(metas[i], forHomepage)] + LinksAmong(frag, i + 1);
    }
  }

  /** Reading the links of the navigation fragment gives, in listing order,
      one link per folder whose target is built from the folder's metadata
      `url` and whose text is its `name`. */
  lemma NavLinksLinks(blog: map<string, ArticleFolder>, listing: seq<string>, forHomepage: bool)
    requires forall i :: 0 <= i < |listing| ==> HasMeta(blog, listing[i])
    ensures NavLinks(blog, listing, forHomepage).Success?
    ensures var links := Links(NavLinks(blog, listing, forHomepage).value);
      && |links| == |listing|
      && forall i :: 0 <= i < |listing| ==>
           links[i] == Link(Some(Href(MetaOf(blog, listing[i]).url, forHomepage)), MetaOf(blog, listing[i]).name)
  {
    NavLinksShape(blog, listing, forHomepage);
    var frag := NavLinks(blog, listing, forHomepage).value;
    var metas := seq(|listing|, i requires 0 <= i < |listing| => MetaOf(blog, listing[i]));
    LinksAmongItems(frag, metas, forHomepage, 0);
  }
}
