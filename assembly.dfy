/**
 * The page assembler: merges a page's title, the message of the day, the
 * page body and the navigation fragment into the anchor `div`s of the
 * template, for an article page (on a private copy of the shared template)
 * and for the homepage (on its own freshly parsed template, with the icon
 * link and image rewritten).
 */
module Assembly {
  import opened Wrappers
  import opened Html
  import opened Content

  /** The anchor `div`s, located by class. */
  const PageTitle: Query := Query("div", Some("page-title"))
  const Alert: Query := Query("div", Some("alert"))
  const ArticleBody: Query := Query("div", Some("article"))
  const Nav: Query := Query("div", Some("nav"))
  const Icon: Query := Query("div", Some("icon"))
  /** `icon.a` and `icon.img`: the first such element under the icon div. */
  const IconLink: Query := Query("a", None)
  const IconImage: Query := Query("img", None)

  const HomeTitle: string := "Ryan's wicked sick technoblog (name pending)"
  const IconHref: string := "index.html"
  const IconSrc: string := "res/me96.gif"

  /** `<i>title</i>`, the node added to the title anchor. */
  function TitleNode(title: string): Node {
    Element("i", [], map[], [Text(title)])
  }

  /** A fragment that holds none of the four anchors the assembler looks
      for, so appending it cannot divert a later lookup. */
  predicate AnchorFree(n: Node) {
    !Contains(n, PageTitle) && !Contains(n, Alert) && !Contains(n, ArticleBody) && !Contains(n, Nav)
  }

  /** The `<i>` title node holds no `div` at all. */
  lemma TitleNodeFindsNoDiv(title: string, q: Query)
    requires q.tag == "div"
    ensures !Contains(TitleNode(title), q)
  {
    var i := TitleNode(title);
    assert FindFirst(i.children[0], q) == None;
    assert FindAmong(i, 1, q) == None;
    assert FindAmong(i, 0, q) == None;
  }

  lemma TitleNodeAnchorFree(title: string)
    ensures AnchorFree(TitleNode(title))
  {
    TitleNodeFindsNoDiv(title, PageTitle);
    TitleNodeFindsNoDiv(title, Alert);
    TitleNodeFindsNoDiv(title, ArticleBody);
    TitleNodeFindsNoDiv(title, Nav);
  }

  /** The loop body of `build_articles` for one article, on values: each
      lookup runs on the page as edited so far.  `content` is what reading
      and converting the article's body gives; it is consulted only once the
      article anchor has been found. */
  function AssembleArticle(template: Node, motd: Node, nav: Node, name: string, content: Result<Node, BuildError>)
    : Result<Node, BuildError>
  {
    match FindFirst(template, PageTitle)
    case None => Failure(MissingAnchor("page-title"))
    case Some(pt) =>
      var s1 := AppendChild(template, pt, TitleNode(name));
      match FindFirst(s1, Alert)
      case None => Failure(MissingAnchor("alert"))
      case Some(al) =>
        var s2 := AppendChild(s1, al, motd);
        match FindFirst(s2, ArticleBody)
        case None => Failure(MissingAnchor("article"))
        case Some(ar) =>
          if content.Failure? then Failure(content.error)
          else
            var s3 := AppendChild(s2, ar, content.value);
            match FindFirst(s3, Nav)
            case None => Failure(MissingAnchor("nav"))
            case Some(nv) => Success(AppendChild(s3, nv, nav))
  }

  /** A page is made only when the article's body could be read. */
  lemma ArticleNeedsBody(template: Node, motd: Node, nav: Node, name: string, content: Result<Node, BuildError>)
    ensures AssembleArticle(template, motd, nav, name, content).Success? ==> content.Success?
  {
  }

  /** One article page: works on a deep copy of the shared template and
      appends deep copies of the shared message of the day and navigation
      fragment.  It modifies no existing object, so the shared documents
      are the same afterwards. */
  method AssembleArticlePage(template: Soup, motd: Soup, navLinks: Soup, name: string, content: Result<Node, BuildError>)
    returns (r: Result<Node, BuildError>)
    ensures r == AssembleArticle(template.root, motd.root, navLinks.root, name, content)
  {
    var soup := new Soup.Copy(template);
    var pt := soup.Find(PageTitle);
    if pt.None? {
      return Failure(MissingAnchor("page-title"));
    }
    soup.Append(pt.value, TitleNode(name));
    var al := soup.Find(Alert);
    if al.None? {
      return Failure(MissingAnchor("alert"));
    }
    var motdCopy := new Soup.Copy(motd);
    soup.Append(al.value, motdCopy.root);
    var ar := soup.Find(ArticleBody);
    if ar.None? {
      return Failure(MissingAnchor("article"));
    }
    if content.Failure? {
      return Failure(content.error);
    }
    soup.Append(ar.value, content.value);
    var nv := soup.Find(Nav);
    if nv.None? {
      return Failure(MissingAnchor("nav"));
    }
    var navCopy := new Soup.Copy(navLinks);
    soup.Append(nv.value, navCopy.root);
    return Success(soup.root);
  }

  /** Appending an anchor-free node leaves every anchor lookup as it was. */
  lemma AppendKeepsAnchors(s: Node, p: Path, c: Node)
    requires IsElementAt(s, p) && AnchorFree(c)
    ensures FindFirst(AppendChild(s, p, c), PageTitle) == FindFirst(s, PageTitle)
    ensures FindFirst(AppendChild(s, p, c), Alert) == FindFirst(s, Alert)
    ensures FindFirst(AppendChild(s, p, c), ArticleBody) == FindFirst(s, ArticleBody)
    ensures FindFirst(AppendChild(s, p, c), Nav) == FindFirst(s, Nav)
  {
    FindAfterAppend(s, p, c, PageTitle);
    FindAfterAppend(s, p, c, Alert);
    FindAfterAppend(s, p, c, ArticleBody);
    FindAfterAppend(s, p, c, Nav);
  }

  /** When the inserted fragments hold no anchors of their own, every lookup
      finds the template's own anchor: the page is the template with the four
      nodes appended at the template's anchors, and a missing anchor (or a
      missing body, once the article anchor is found) is the error, in the
      order the script looks them up. */
  lemma ArticleAnchors(t: Node, motd: Node, nav: Node, name: string, content: Result<Node, BuildError>)
    requires AnchorFree(motd) && AnchorFree(nav) && (content.Success? ==> AnchorFree(content.value))
    ensures FindFirst(t, PageTitle).None? ==>
      AssembleArticle(t, motd, nav, name, content) == Failure(MissingAnchor("page-title"))
    ensures FindFirst(t, PageTitle).Some? && FindFirst(t, Alert).None? ==>
      AssembleArticle(t, motd, nav, name, content) == Failure(MissingAnchor("alert"))
    ensures FindFirst(t, PageTitle).Some? && FindFirst(t, Alert).Some? && FindFirst(t, ArticleBody).None? ==>
      AssembleArticle(t, motd, nav, name, content) == Failure(MissingAnchor("article"))
    ensures (FindFirst(t, PageTitle).Some? && FindFirst(t, Alert).Some? && FindFirst(t, ArticleBody).Some?
             && content.Failure?) ==>
      AssembleArticle(t, motd, nav, name, content) == Failure(content.error)
    ensures (FindFirst(t, PageTitle).Some? && FindFirst(t, Alert).Some? && FindFirst(t, ArticleBody).Some?
             && content.Success? && FindFirst(t, Nav).None?) ==>
      AssembleArticle(t, motd, nav, name, content) == Failure(MissingAnchor("nav"))
    ensures (FindFirst(t, PageTitle).Some? && FindFirst(t, Alert).Some? && FindFirst(t, ArticleBody).Some?
             && content.Success? && FindFirst(t, Nav).Some?) ==>
      var ps := [FindFirst(t, PageTitle).value, FindFirst(t, Alert).value,
                 FindFirst(t, ArticleBody).value, FindFirst(t, Nav).value];
      AssembleArticle(t, motd, nav, name, content) == Success(AppendEach(t, ps, [TitleNode(name), motd, content.value, nav]))
  {
    TitleNodeAnchorFree(name);
    var r := AssembleArticle(t, motd, nav, name, content);
    if FindFirst(t, PageTitle).None? {
      return;
    }
    var pt := FindFirst(t, PageTitle).value;
    var s1 := AppendChild(t, pt, TitleNode(name));
    AppendKeepsAnchors(t, pt, TitleNode(name));
    if FindFirst(t, Alert).None? {
      assert r == Failure(MissingAnchor("alert"));
      return;
    }
    var al := FindFirst(t, Alert).value;
    var s2 := AppendChild(s1, al, motd);
    AppendKeepsAnchors(s1, al, motd);
    if FindFirst(t, ArticleBody).None? {
      assert r == Failure(MissingAnchor("article"));
      return;
    }
    var ar := FindFirst(t, ArticleBody).value;
    if content.Failure? {
      assert r == Failure(content.error);
      return;
    }
    var s3 := AppendChild(s2, ar, content.value);
    AppendKeepsAnchors(s2, ar, content.value);
    if FindFirst(t, Nav).None? {
      assert r == Failure(MissingAnchor("nav"));
      return;
    }
    var nv := FindFirst(t, Nav).value;
    assert r == Success(AppendChild(s3, nv, nav));
    AppendFour(t, pt, al, ar, nv, TitleNode(name), motd, content.value, nav);
  }

  /** The article page in the usual case, where the template's four anchors
      are separate `div`s (none inside another): the title anchor gains the
      `<i>` holding the article's name as its last child, the alert anchor
      the message of the day, the article anchor the body and the nav anchor
      the navigation fragment; every node of the template off the paths to
      the anchors is unchanged, and every node of the template keeps its tag,
      classes and attributes. */
  lemma ArticleAnatomy(t: Node, motd: Node, nav: Node, name: string, body: Node)
    requires AnchorFree(motd) && AnchorFree(nav) && AnchorFree(body)
    requires FindFirst(t, PageTitle).Some? && FindFirst(t, Alert).Some?
    requires FindFirst(t, ArticleBody).Some? && FindFirst(t, Nav).Some?
    requires var ps := [FindFirst(t, PageTitle).value, FindFirst(t, Alert).value,
                        FindFirst(t, ArticleBody).value, FindFirst(t, Nav).value];
      forall i, j :: 0 <= i < 4 && 0 <= j < 4 && i != j ==> !IsPrefix(ps[i], ps[j])
    ensures AssembleArticle(t, motd, nav, name, Success(body)).Success?
    ensures var page := AssembleArticle(t, motd, nav, name, Success(body)).value;
      var ps := [FindFirst(t, PageTitle).value, FindFirst(t, Alert).value,
                 FindFirst(t, ArticleBody).value, FindFirst(t, Nav).value];
      && GainedChild(t, page, ps[0], TitleNode(name))
      && GainedChild(t, page, ps[1], motd)
      && GainedChild(t, page, ps[2], body)
      && GainedChild(t, page, ps[3], nav)
      && (forall q :: ValidPath(t, q) && (forall i :: 0 <= i < 4 ==> !IsPrefix(q, ps[i])) ==>
            ValidPath(page, q) && At(page, q) == At(t, q))
      && (forall q :: ValidPath(t, q) ==> ValidPath(page, q) && Shell(At(page, q)) == Shell(At(t, q)))
  {
    ArticleAnchors(t, motd, nav, name, Success(body));
    var ps := [FindFirst(t, PageTitle).value, FindFirst(t, Alert).value,
               FindFirst(t, ArticleBody).value, FindFirst(t, Nav).value];
    var cs := [TitleNode(name), motd, body, nav];
    AppendEachAnatomy(t, ps, cs);
    var page := AppendEach(t, ps, cs);
    assert GainedChild(t, page, ps[0], cs[0]) && GainedChild(t, page, ps[1], cs[1]);
    assert GainedChild(t, page, ps[2], cs[2]) && GainedChild(t, page, ps[3], cs[3]);
  }

  /** The icon edits of `build_homepage`: the first `<a>` under the icon
      `div` gets the homepage as its target, then the first `<img>` under it
      gets the fixed picture. */
  function EditIcon(template: Node): Result<Node, BuildError> {
    match FindFirst(template, Icon)
    case None => Failure(MissingAnchor("icon"))
    case Some(ic) =>
      match FindFirst(At(template, ic), IconLink)
      case None => Failure(MissingIconChild("a"))
      case Some(ra) =>
        PathConcat(template, ic, ra);
        SetAttrBelow(template, ic, ra, "href", IconHref);
        var s1 := SetAttr(template, ic + ra, "href", IconHref);
        match FindFirst(At(s1, ic), IconImage)
        case None => Failure(MissingIconChild("img"))
        case Some(ri) =>
          PathConcat(s1, ic, ri);
          Success(SetAttr(s1, ic + ri, "src", IconSrc))
  }

  /** The homepage edits of `build_homepage`, on values: the icon edits,
      then the remaining edits. */
  function AssembleHomepage(template: Node, motd: Node, nav: Node, content: Result<Node, BuildError>)
    : Result<Node, BuildError>
  {
    match EditIcon(template)
    case Failure(e) => Failure(e)
    case Success(s) => FillHomepage(s, motd, nav, content)
  }

  /** After the icon edits: the message of the day, the fixed title, the
      homepage body and the navigation fragment are appended.  The body is
      read after the title is placed and before the article anchor is looked
      up. */
  function FillHomepage(s2: Node, motd: Node, nav: Node, content: Result<Node, BuildError>)
    : Result<Node, BuildError>
  {
    match FindFirst(s2, Alert)
    case None => Failure(MissingAnchor("alert"))
    case Some(al) =>
      var s3 := AppendChild(s2, al, motd);
      match FindFirst(s3, PageTitle)
      case None => Failure(MissingAnchor("page-title"))
      case Some(pt) =>
        var s4 := AppendChild(s3, pt, TitleNode(HomeTitle));
        if content.Failure? then Failure(content.error)
        else
          match FindFirst(s4, ArticleBody)
          case None => Failure(MissingAnchor("article"))
          case Some(ar) =>
            var s5 := AppendChild(s4, ar, content.value);
            match FindFirst(s5, Nav)
            case None => Failure(MissingAnchor("nav"))
            case Some(nv) => Success(AppendChild(s5, nv, nav))
  }

  /** The template has an icon `div` holding a link and an image. */
  predicate HasIcon(t: Node) {
    FindFirst(t, Icon).Some?
    && FindFirst(At(t, FindFirst(t, Icon).value), IconLink).Some?
    && FindFirst(At(t, FindFirst(t, Icon).value), IconImage).Some?
  }

  /** Paths of the icon's link and image in the template. */
  function IconLinkPath(t: Node): Path
    requires HasIcon(t)
  {
    FindFirst(t, Icon).value + FindFirst(At(t, FindFirst(t, Icon).value), IconLink).value
  }

  function IconImagePath(t: Node): Path
    requires HasIcon(t)
  {
    FindFirst(t, Icon).value + FindFirst(At(t, FindFirst(t, Icon).value), IconImage).value
  }

  /** The template with the icon link's `href` and then the icon image's
      `src` set. */
  function IconEdited(t: Node): Node
    requires HasIcon(t)
  {
    IconPathsValid(t);
    SetAttr(SetAttr(t, IconLinkPath(t), "href", IconHref), IconImagePath(t), "src", IconSrc)
  }

  lemma IconPathsValid(t: Node)
    requires HasIcon(t)
    ensures IsElementAt(t, IconLinkPath(t)) && IsElementAt(t, IconImagePath(t))
    ensures IconLinkPath(t) != IconImagePath(t)
    ensures IsElementAt(SetAttr(t, IconLinkPath(t), "href", IconHref), IconImagePath(t))
  {
    var ic := FindFirst(t, Icon).value;
    var icon := At(t, ic);
    var ra, ri := FindFirst(icon, IconLink).value, FindFirst(icon, IconImage).value;
    PathConcat(t, ic, ra);
    PathConcat(t, ic, ri);
    assert At(t, ic + ra).tag == "a" && At(t, ic + ri).tag == "img";
    SetAttrKeepsShells(t, ic + ra, "href", IconHref, ic + ri);
  }

  /** The icon edits succeed exactly when the template has an icon `div`
      holding an `<a>` and an `<img>`, and then set the first link's `href`
      and the first image's `src` under it. */
  lemma EditIconSucceeds(t: Node)
    ensures EditIcon(t).Success? <==> HasIcon(t)
    ensures HasIcon(t) ==> EditIcon(t) == Success(IconEdited(t))
  {
    if FindFirst(t, Icon).Some? {
      var ic := FindFirst(t, Icon).value;
      var icon := At(t, ic);
      if FindFirst(icon, IconLink).Some? {
        var ra := FindFirst(icon, IconLink).value;
        PathConcat(t, ic, ra);
        SetAttrBelow(t, ic, ra, "href", IconHref);
        FindAfterSetAttr(icon, ra, "href", IconHref, IconImage);
      }
    }
  }

  /** When the icon edits succeed, the homepage is the icon-edited template
      filled in. */
  lemma HomepageAfterIcon(t: Node, motd: Node, nav: Node, content: Result<Node, BuildError>)
    requires HasIcon(t)
    ensures AssembleHomepage(t, motd, nav, content) == FillHomepage(IconEdited(t), motd, nav, content)
  {
    EditIconSucceeds(t);
  }

  /** The icon edits change the link's `href` and the image's `src` and no
      other node's tag, classes or attributes; nodes off the paths to the two
      are unchanged; and no lookup by tag and class changes. */
  lemma IconEditsShape(t: Node)
    requires HasIcon(t)
    ensures var s, a, img := IconEdited(t), IconLinkPath(t), IconImagePath(t);
      && IsElementAt(t, a) && IsElementAt(t, img)
      && ValidPath(s, a) && Shell(At(s, a)) == Shell(At(t, a)).(attrs := At(t, a).attrs["href" := IconHref])
      && ValidPath(s, img) && Shell(At(s, img)) == Shell(At(t, img)).(attrs := At(t, img).attrs["src" := IconSrc])
      && (forall q :: ValidPath(t, q) && q != a && q != img ==> ValidPath(s, q) && Shell(At(s, q)) == Shell(At(t, q)))
  {
    IconPathsValid(t);
    var a, img := IconLinkPath(t), IconImagePath(t);
    var s1 := SetAttr(t, a, "href", IconHref);
    SetAttrKeepsShells(s1, img, "src", IconSrc, a);
    SetAttrKeepsShells(t, a, "href", IconHref, img);
    forall q | ValidPath(t, q) && q != a && q != img
      ensures ValidPath(IconEdited(t), q) && Shell(At(IconEdited(t), q)) == Shell(At(t, q))
    {
      SetAttrKeepsShells(t, a, "href", IconHref, q);
      SetAttrKeepsShells(s1, img, "src", IconSrc, q);
    }
  }

  lemma IconEditsElsewhere(t: Node, q: Path)
    requires HasIcon(t) && ValidPath(t, q) && !IsPrefix(q, IconLinkPath(t)) && !IsPrefix(q, IconImagePath(t))
    ensures ValidPath(IconEdited(t), q) && At(IconEdited(t), q) == At(t, q)
  {
    IconPathsValid(t);
    SetAttrElsewhere(t, IconLinkPath(t), "href", IconHref, q);
    SetAttrElsewhere(SetAttr(t, IconLinkPath(t), "href", IconHref), IconImagePath(t), "src", IconSrc, q);
  }

  lemma IconEditsKeepFinds(t: Node, q: Query)
    requires HasIcon(t)
    ensures FindFirst(IconEdited(t), q) == FindFirst(t, q)
  {
    IconPathsValid(t);
    FindAfterSetAttr(t, IconLinkPath(t), "href", IconHref, q);
    FindAfterSetAttr(SetAttr(t, IconLinkPath(t), "href", IconHref), IconImagePath(t), "src", IconSrc, q);
  }

  /** With anchor-free fragments, every homepage lookup after the icon edits
      finds the anchor of the icon-edited template, so the homepage is that
      template with the four nodes appended at its anchors; when an anchor is
      missing, the homepage fails, in the order the script looks them up. */
  lemma HomepageAnchors(s: Node, motd: Node, nav: Node, content: Result<Node, BuildError>)
    requires AnchorFree(motd) && AnchorFree(nav) && (content.Success? ==> AnchorFree(content.value))
    ensures FindFirst(s, Alert).None? ==>
      FillHomepage(s, motd, nav, content) == Failure(MissingAnchor("alert"))
    ensures FindFirst(s, Alert).Some? && FindFirst(s, PageTitle).None? ==>
      FillHomepage(s, motd, nav, content) == Failure(MissingAnchor("page-title"))
    ensures FindFirst(s, Alert).Some? && FindFirst(s, PageTitle).Some? && content.Failure? ==>
      FillHomepage(s, motd, nav, content) == Failure(content.error)
    ensures (FindFirst(s, Alert).Some? && FindFirst(s, PageTitle).Some? && content.Success?
             && FindFirst(s, ArticleBody).None?) ==>
      FillHomepage(s, motd, nav, content) == Failure(MissingAnchor("article"))
    ensures (FindFirst(s, Alert).Some? && FindFirst(s, PageTitle).Some? && content.Success?
             && FindFirst(s, ArticleBody).Some? && FindFirst(s, Nav).None?) ==>
      FillHomepage(s, motd, nav, content) == Failure(MissingAnchor("nav"))
    ensures (FindFirst(s, Alert).Some? && FindFirst(s, PageTitle).Some? && content.Success?
             && FindFirst(s, ArticleBody).Some? && FindFirst(s, Nav).Some?) ==>
      var ps := [FindFirst(s, Alert).value, FindFirst(s, PageTitle).value,
                 FindFirst(s, ArticleBody).value, FindFirst(s, Nav).value];
      FillHomepage(s, motd, nav, content) == Success(AppendEach(s, ps, [motd, TitleNode(HomeTitle), content.value, nav]))
  {
    TitleNodeAnchorFree(HomeTitle);
    var r := FillHomepage(s, motd, nav, content);
    if FindFirst(s, Alert).None? {
      return;
    }
    var al := FindFirst(s, Alert).value;
    var s3 := AppendChild(s, al, motd);
    AppendKeepsAnchors(s, al, motd);
    if FindFirst(s, PageTitle).None? {
      assert r == Failure(MissingAnchor("page-title"));
      return;
    }
    var pt := FindFirst(s, PageTitle).value;
    var s4 := AppendChild(s3, pt, TitleNode(HomeTitle));
    AppendKeepsAnchors(s3, pt, TitleNode(HomeTitle));
    if content.Failure? {
      assert r == Failure(content.error);
      return;
    }
    if FindFirst(s, ArticleBody).None? {
      assert r == Failure(MissingAnchor("article"));
      return;
    }
    var ar := FindFirst(s, ArticleBody).value;
    var s5 := AppendChild(s4, ar, content.value);
    AppendKeepsAnchors(s4, ar, content.value);
    if FindFirst(s, Nav).None? {
      assert r == Failure(MissingAnchor("nav"));
      return;
    }
    var nv := FindFirst(s, Nav).value;
    assert r == Success(AppendChild(s5, nv, nav));
    AppendFour(s, al, pt, ar, nv, motd, TitleNode(HomeTitle), content.value, nav);
  }

  /** On the finished homepage the icon link points at the homepage and the
      icon image shows the fixed picture; every other node of the template
      keeps its tag, classes and attributes. */
  lemma HomepageIcon(t: Node, motd: Node, nav: Node, content: Result<Node, BuildError>)
    requires HasIcon(t)
    requires AssembleHomepage(t, motd, nav, content).Success?
    ensures var page := AssembleHomepage(t, motd, nav, content).value;
      var a, img := IconLinkPath(t), IconImagePath(t);
      && IsElementAt(t, a) && ValidPath(page, a)
      && Shell(At(page, a)) == Shell(At(t, a)).(attrs := At(t, a).attrs["href" := IconHref])
      && IsElementAt(t, img) && ValidPath(page, img)
      && Shell(At(page, img)) == Shell(At(t, img)).(attrs := At(t, img).attrs["src" := IconSrc])
      && (forall q :: ValidPath(t, q) && q != a && q != img ==> ValidPath(page, q) && Shell(At(page, q)) == Shell(At(t, q)))
  {
    EditIconSucceeds(t);
    IconEditsShape(t);
    var s := IconEdited(t);
    var page := AssembleHomepage(t, motd, nav, content).value;
    assert FillHomepage(s, motd, nav, content) == Success(page);
    var al := FindFirst(s, Alert).value;
    var s3 := AppendChild(s, al, motd);
    var pt := FindFirst(s3, PageTitle).value;
    var s4 := AppendChild(s3, pt, TitleNode(HomeTitle));
    var ar := FindFirst(s4, ArticleBody).value;
    var s5 := AppendChild(s4, ar, content.value);
    var nv := FindFirst(s5, Nav).value;
    assert page == AppendChild(s5, nv, nav);
    forall q | ValidPath(s, q)
      ensures ValidPath(page, q) && Shell(At(page, q)) == Shell(At(s, q))
    {
      AppendChildKeepsShells(s, al, motd, q);
      AppendChildKeepsShells(s3, pt, TitleNode(HomeTitle), q);
      AppendChildKeepsShells(s4, ar, content.value, q);
      AppendChildKeepsShells(s5, nv, nav, q);
    }
  }

  /** The homepage's appends in the usual case, where the four anchors found
      in the icon-edited template are separate `div`s: each anchor gains its
      one new last child, nodes off the paths to the anchors are unchanged
      and every node keeps its tag, classes and attributes. */
  lemma FillAnatomy(s: Node, motd: Node, nav: Node, body: Node)
    requires AnchorFree(motd) && AnchorFree(nav) && AnchorFree(body)
    requires FindFirst(s, Alert).Some? && FindFirst(s, PageTitle).Some?
    requires FindFirst(s, ArticleBody).Some? && FindFirst(s, Nav).Some?
    requires var ps := [FindFirst(s, Alert).value, FindFirst(s, PageTitle).value,
                        FindFirst(s, ArticleBody).value, FindFirst(s, Nav).value];
      forall i, j :: 0 <= i < 4 && 0 <= j < 4 && i != j ==> !IsPrefix(ps[i], ps[j])
    ensures FillHomepage(s, motd, nav, Success(body)).Success?
    ensures var page := FillHomepage(s, motd, nav, Success(body)).value;
      var ps := [FindFirst(s, Alert).value, FindFirst(s, PageTitle).value,
                 FindFirst(s, ArticleBody).value, FindFirst(s, Nav).value];
      && GainedChild(s, page, ps[0], motd)
      && GainedChild(s, page, ps[1], TitleNode(HomeTitle))
      && GainedChild(s, page, ps[2], body)
      && GainedChild(s, page, ps[3], nav)
      && (forall q :: ValidPath(s, q) && (forall i :: 0 <= i < 4 ==> !IsPrefix(q, ps[i])) ==>
            ValidPath(page, q) && At(page, q) == At(s, q))
  {
    HomepageAnchors(s, motd, nav, Success(body));
    var ps := [FindFirst(s, Alert).value, FindFirst(s, PageTitle).value,
               FindFirst(s, ArticleBody).value, FindFirst(s, Nav).value];
    var cs := [motd, TitleNode(HomeTitle), body, nav];
    AppendEachAnatomy(s, ps, cs);
    var page := AppendEach(s, ps, cs);
    assert GainedChild(s, page, ps[0], cs[0]) && GainedChild(s, page, ps[1], cs[1]);
    assert GainedChild(s, page, ps[2], cs[2]) && GainedChild(s, page, ps[3], cs[3]);
  }

  /** The homepage in the usual case, where the four anchors are separate
      `div`s off the paths to the icon's link and image: the alert anchor
      gains the message of the day, the title anchor the `<i>` holding the
      fixed title, the article anchor the body and the nav anchor the
      navigation fragment, each as its one new last child. */
  lemma HomepageAnatomy(t: Node, motd: Node, nav: Node, body: Node)
    requires HasIcon(t)
    requires AnchorFree(motd) && AnchorFree(nav) && AnchorFree(body)
    requires FindFirst(t, Alert).Some? && FindFirst(t, PageTitle).Some?
    requires FindFirst(t, ArticleBody).Some? && FindFirst(t, Nav).Some?
    requires var ps := [FindFirst(t, Alert).value, FindFirst(t, PageTitle).value,
                        FindFirst(t, ArticleBody).value, FindFirst(t, Nav).value];
      && (forall i, j :: 0 <= i < 4 && 0 <= j < 4 && i != j ==> !IsPrefix(ps[i], ps[j]))
      && (forall i :: 0 <= i < 4 ==> !IsPrefix(ps[i], IconLinkPath(t)) && !IsPrefix(ps[i], IconImagePath(t)))
    ensures AssembleHomepage(t, motd, nav, Success(body)).Success?
    ensures var page := AssembleHomepage(t, motd, nav, Success(body)).value;
      && GainedChild(t, page, FindFirst(t, Alert).value, motd)
      && GainedChild(t, page, FindFirst(t, PageTitle).value, TitleNode(HomeTitle))
      && GainedChild(t, page, FindFirst(t, ArticleBody).value, body)
      && GainedChild(t, page, FindFirst(t, Nav).value, nav)
    ensures var page := AssembleHomepage(t, motd, nav, Success(body)).value;
      forall q :: ValidPath(t, q) && q != IconLinkPath(t) && q != IconImagePath(t) ==>
        ValidPath(page, q) && Shell(At(page, q)) == Shell(At(t, q))
  {
    var s := IconEdited(t);
    IconEditsKeepFinds(t, Alert);
    IconEditsKeepFinds(t, PageTitle);
    IconEditsKeepFinds(t, ArticleBody);
    IconEditsKeepFinds(t, Nav);
    var ps := [FindFirst(t, Alert).value, FindFirst(t, PageTitle).value,
               FindFirst(t, ArticleBody).value, FindFirst(t, Nav).value];
    var cs := [motd, TitleNode(HomeTitle), body, nav];
    assert ps == [FindFirst(s, Alert).value, FindFirst(s, PageTitle).value,
                  FindFirst(s, ArticleBody).value, FindFirst(s, Nav).value];
    FillAnatomy(s, motd, nav, body);
    HomepageAfterIcon(t, motd, nav, Success(body));
    IconEditsElsewhere(t, ps[0]);
    IconEditsElsewhere(t, ps[1]);
    IconEditsElsewhere(t, ps[2]);
    IconEditsElsewhere(t, ps[3]);
    HomepageIcon(t, motd, nav, Success(body));
  }

  /** `build_homepage`'s edits on its own parsed template (no copy is made:
      the template is used once).  The message of the day and navigation
      fragment are appended as they are. */
  method AssembleHomepagePage(soup: Soup, motd: Node, navLinks: Node, content: Result<Node, BuildError>)
    returns (r: Result<Node, BuildError>)
    modifies soup
    ensures r == AssembleHomepage(old(soup.root), motd, navLinks, content)
    ensures r.Success? ==> soup.root == r.value
  {
    var iconError := EditIconPage(soup);
    if iconError.Some? {
      return Failure(iconError.value);
    }
    r := FillHomepagePage(soup, motd, navLinks, content);
  }

  /** The icon edits, on the document: the error that stops them, or none
      and the edited document. */
  method EditIconPage(soup: Soup) returns (err: Option<BuildError>)
    modifies soup
    ensures err.Some? ==> EditIcon(old(soup.root)) == Failure(err.value)
    ensures err.None? ==> EditIcon(old(soup.root)) == Success(soup.root)
  {
    var ic := soup.Find(Icon);
    if ic.None? {
      return Some(MissingAnchor("icon"));
    }
    var ra := FindFirst(At(soup.root, ic.value), IconLink);
    if ra.None? {
      return Some(MissingIconChild("a"));
    }
    PathConcat(soup.root, ic.value, ra.value);
    SetAttrBelow(soup.root, ic.value, ra.value, "href", IconHref);
    soup.SetAttribute(ic.value + ra.value, "href", IconHref);
    var ri := FindFirst(At(soup.root, ic.value), IconImage);
    if ri.None? {
      return Some(MissingIconChild("img"));
    }
    PathConcat(soup.root, ic.value, ri.value);
    soup.SetAttribute(ic.value + ri.value, "src", IconSrc);
    return None;
  }

  /** The homepage edits after the icon, on the document. */
  method FillHomepagePage(soup: Soup, motd: Node, navLinks: Node, content: Result<Node, BuildError>)
    returns (r: Result<Node, BuildError>)
    modifies soup
    ensures r == FillHomepage(old(soup.root), motd, navLinks, content)
    ensures r.Success? ==> soup.root == r.value
  {
    var al := soup.Find(Alert);
    if al.None? {
      return Failure(MissingAnchor("alert"));
    }
    soup.Append(al.value, motd);
    var pt := soup.Find(PageTitle);
    if pt.None? {
      return Failure(MissingAnchor("page-title"));
    }
    soup.Append(pt.value, TitleNode(HomeTitle));
    if content.Failure? {
      return Failure(content.error);
    }
    var ar := soup.Find(ArticleBody);
    if ar.None? {
      return Failure(MissingAnchor("article"));
    }
    soup.Append(ar.value, content.value);
    var nv := soup.Find(Nav);
    if nv.None? {
      return Failure(MissingAnchor("nav"));
    }
    soup.Append(nv.value, navLinks);
    return Success(soup.root);
  }
}
