/**
 * The document model: an HTML document or fragment as a tree of tagged nodes,
 * with the queries and edits the build script asks of its HTML library
 * (find the first descendant by tag and class, append a child, set an
 * attribute, deep copy).  Parsing and serialisation are not modelled: a
 * parsed document is simply a `Node` value.
 */
module Html {
  import opened Wrappers

  /** A text run, or an element with its tag, its class tokens, its other
      attributes and its children in document order. */
  datatype Node =
    | Text(text: string)
    | Element(tag: string, classes: seq<string>, attrs: map<string, string>, children: seq<Node>)

  /** The position of a descendant: child indices from the root. */
  type Path = seq<nat>

  /** The tag the HTML library gives the root of a parsed document. */
  const DocumentTag: string := "[document]"

  /** A whole document (or an empty one) holding the given top-level nodes. */
  function Fragment(children: seq<Node>): Node {
    Element(DocumentTag, [], map[], children)
  }

  /** `find(tag, cls)`: a tag name and, optionally, a class token. */
  datatype Query = Query(tag: string, cls: Option<string>)

  predicate Matches(n: Node, q: Query) {
    n.Element? && n.tag == q.tag && (q.cls.Some? ==> q.cls.value in n.classes)
  }

  predicate ValidPath(n: Node, p: Path)
    decreases |p|
  {
    p == [] || (n.Element? && p[0] < |n.children| && ValidPath(n.children[p[0]], p[1..]))
  }

  function At(n: Node, p: Path): Node
    requires ValidPath(n, p)
    decreases |p|
  {
    if p == [] then n else At(n.children[p[0]], p[1..])
  }

  predicate IsElementAt(n: Node, p: Path) {
    ValidPath(n, p) && At(n, p).Element?
  }

  predicate IsPrefix(q: Path, p: Path) {
    |q| <= |p| && q == p[..|q|]
  }

  /** A node without its children: what an edit below it leaves alone. */
  function Shell(n: Node): Node {
    if n.Element? then n.(children := []) else n
  }

  /** `p` comes strictly before `r` in document (pre-)order: an ancestor
      precedes its descendants, and an earlier sibling's subtree precedes a
      later sibling's. */
  predicate Precedes(p: Path, r: Path)
    decreases |p|
  {
    r != [] && (p == [] || p[0] < r[0] || (p[0] == r[0] && Precedes(p[1..], r[1..])))
  }

  lemma {:induction false} PathConcat(n: Node, p: Path, q: Path)
    requires ValidPath(n, p) && ValidPath(At(n, p), q)
    ensures ValidPath(n, p + q) && At(n, p + q) == At(At(n, p), q)
    decreases |p|
  {
    if p != [] {
      assert (p + q)[0] == p[0] && (p + q)[1..] == p[1..] + q;
      PathConcat(n.children[p[0]], p[1..], q);
      assert At(n, p + q) == At(n.children[p[0]], p[1..] + q);
    } else {
      assert p + q == q;
    }
  }

  // ---------------------------------------------------------------------
  // find: the first descendant in document order that matches a query
  // ---------------------------------------------------------------------

  /** The first proper descendant of `n`, in document order, matching `q`. */
  function FindFirst(n: Node, q: Query): (r: Option<Path>)
    ensures r.Some? ==> r.value != [] && ValidPath(n, r.value) && Matches(At(n, r.value), q)
    decreases n, 1, 0
  {
    if n.Text? then None else FindAmong(n, 0, q)
  }

  /** The first match in the subtrees of the children `i..` of `n`. */
  function FindAmong(n: Node, i: nat, q: Query): (r: Option<Path>)
    requires n.Element? && i <= |n.children|
    ensures r.Some? ==> r.value != [] && i <= r.value[0] && ValidPath(n, r.value) && Matches(At(n, r.value), q)
    decreases n, 0, |n.children| - i
  {
    if i == |n.children| then None
    else if Matches(n.children[i], q) then Some([i])
    else match FindFirst(n.children[i], q)
      case Some(p) =>
        assert ([i] + p)[1..] == p;
        Some([i] + p)
      case None => FindAmong(n, i + 1, q)
  }

  /** `n` itself or one of its descendants matches `q`. */
  predicate Contains(n: Node, q: Query) {
    Matches(n, q) || FindFirst(n, q).Some?
  }

  /** When find reports nothing, no descendant matches. */
  lemma {:induction false} FindFirstComplete(n: Node, q: Query, p: Path)
    requires FindFirst(n, q).None? && ValidPath(n, p) && p != []
    ensures !Matches(At(n, p), q)
    decreases n, 1, 0
  {
    FindAmongComplete(n, q, 0, p);
  }

  lemma {:induction false} FindAmongComplete(n: Node, q: Query, i: nat, p: Path)
    requires n.Element? && i <= |n.children| && FindAmong(n, i, q).None?
    requires ValidPath(n, p) && p != [] && i <= p[0]
    ensures !Matches(At(n, p), q)
    decreases n, 0, |n.children| - i
  {
    var c := n.children[i];
    if p[0] == i {
      if p[1..] != [] {
        FindFirstComplete(c, q, p[1..]);
      }
    } else {
      FindAmongComplete(n, q, i + 1, p);
    }
  }

  /** What find reports is the first match: no match precedes it in
      document order. */
  lemma {:induction false} FindFirstIsFirst(n: Node, q: Query, p: Path)
    requires FindFirst(n, q).Some? && ValidPath(n, p) && p != []
    requires Precedes(p, FindFirst(n, q).value)
    ensures !Matches(At(n, p), q)
    decreases n, 1, 0
  {
    FindAmongIsFirst(n, q, 0, p);
  }

  lemma {:induction false} FindAmongIsFirst(n: Node, q: Query, i: nat, p: Path)
    requires n.Element? && i <= |n.children| && FindAmong(n, i, q).Some?
    requires ValidPath(n, p) && p != [] && i <= p[0]
    requires Precedes(p, FindAmong(n, i, q).value)
    ensures !Matches(At(n, p), q)
    decreases n, 0, |n.children| - i
  {
    var c := n.children[i];
    if Matches(c, q) {
      // the result is [i]: nothing at or after child i precedes it
    } else if FindFirst(c, q).Some? {
      if p[0] == i && p[1..] != [] {
        FindFirstIsFirst(c, q, p[1..]);
      }
    } else if p[0] == i {
      if p[1..] != [] {
        FindFirstComplete(c, q, p[1..]);
      }
    } else {
      FindAmongIsFirst(n, q, i + 1, p);
    }
  }

  // ---------------------------------------------------------------------
  // append and attribute assignment
  // ---------------------------------------------------------------------

  /** `parent.append(c)` for the element at `p`: `c` becomes its last child. */
  function AppendChild(n: Node, p: Path, c: Node): (r: Node)
    requires IsElementAt(n, p)
    ensures Shell(r) == Shell(n)
    ensures IsElementAt(r, p)
    ensures At(r, p) == At(n, p).(children := At(n, p).children + [c])
    decreases |p|
  {
    if p == [] then n.(children := n.children + [c])
    else n.(children := n.children[p[0] := AppendChild(n.children[p[0]], p[1..], c)])
  }

  /** `tag[key] = value` for the element at `p`. */
  function SetAttr(n: Node, p: Path, key: string, value: string): (r: Node)
    requires IsElementAt(n, p)
    ensures Shell(r) == Shell(n) || p == []
    ensures IsElementAt(r, p)
    ensures At(r, p) == At(n, p).(attrs := At(n, p).attrs[key := value])
    decreases |p|
  {
    if p == [] then n.(attrs := n.attrs[key := value])
    else n.(children := n.children[p[0] := SetAttr(n.children[p[0]], p[1..], key, value)])
  }

  /** Appending below `p` leaves every node off the path to `p` as it was. */
  lemma {:induction false} AppendChildElsewhere(n: Node, p: Path, c: Node, q: Path)
    requires IsElementAt(n, p) && ValidPath(n, q) && !IsPrefix(q, p)
    ensures ValidPath(AppendChild(n, p, c), q) && At(AppendChild(n, p, c), q) == At(n, q)
    decreases |p|
  {
    if p != [] && q[0] == p[0] {
      assert !IsPrefix(q[1..], p[1..]);
      AppendChildElsewhere(n.children[p[0]], p[1..], c, q[1..]);
    }
  }

  /** Setting an attribute below `p` leaves every node off the path to `p`
      as it was. */
  lemma {:induction false} SetAttrElsewhere(n: Node, p: Path, key: string, value: string, q: Path)
    requires IsElementAt(n, p) && ValidPath(n, q) && !IsPrefix(q, p)
    ensures ValidPath(SetAttr(n, p, key, value), q) && At(SetAttr(n, p, key, value), q) == At(n, q)
    decreases |p|
  {
    if p != [] && q[0] == p[0] {
      assert !IsPrefix(q[1..], p[1..]);
      SetAttrElsewhere(n.children[p[0]], p[1..], key, value, q[1..]);
    }
  }

  /** Setting an attribute at `p + q` is setting it at `q` inside the
      subtree at `p`. */
  lemma {:induction false} SetAttrBelow(n: Node, p: Path, q: Path, key: string, value: string)
    requires ValidPath(n, p) && IsElementAt(At(n, p), q)
    ensures IsElementAt(n, p + q)
    ensures ValidPath(SetAttr(n, p + q, key, value), p)
    ensures At(SetAttr(n, p + q, key, value), p) == SetAttr(At(n, p), q, key, value)
    decreases |p|
  {
    PathConcat(n, p, q);
    if p != [] {
      assert (p + q)[0] == p[0] && (p + q)[1..] == p[1..] + q;
      SetAttrBelow(n.children[p[0]], p[1..], q, key, value);
    } else {
      assert p + q == q;
    }
  }

  /** All existing nodes survive an append with their tag, classes and
      attributes. */
  lemma AppendChildKeepsAllShells(n: Node, p: Path, c: Node)
    requires IsElementAt(n, p)
    ensures forall q :: ValidPath(n, q) ==>
      ValidPath(AppendChild(n, p, c), q) && Shell(At(AppendChild(n, p, c), q)) == Shell(At(n, q))
  {
    forall q | ValidPath(n, q)
      ensures ValidPath(AppendChild(n, p, c), q) && Shell(At(AppendChild(n, p, c), q)) == Shell(At(n, q))
    {
      AppendChildKeepsShells(n, p, c, q);
    }
  }

  /** Appends `cs[i]` to the element at `ps[i]`, for each `i` in turn (a
      target that is no element is passed over; the lemmas below require
      every target to be one). */
  function AppendEach(n: Node, ps: seq<Path>, cs: seq<Node>): Node
    requires |ps| == |cs|
    decreases |ps|
  {
    if ps == [] then n
    else
      var n1 := if IsElementAt(n, ps[0]) then AppendChild(n, ps[0], cs[0]) else n;
      AppendEach(n1, ps[1..], cs[1..])
  }

  /** The element at `p` of `after` is the element at `p` of `before` with
      `c` as one more, last, child. */
  predicate GainedChild(before: Node, after: Node, p: Path, c: Node) {
    && IsElementAt(before, p)
    && IsElementAt(after, p)
    && At(after, p) == At(before, p).(children := At(before, p).children + [c])
  }

  /** Four appends at elements, made one after the other. */
  lemma AppendFour(n: Node, p0: Path, p1: Path, p2: Path, p3: Path, c0: Node, c1: Node, c2: Node, c3: Node)
    requires IsElementAt(n, p0)
    requires IsElementAt(AppendChild(n, p0, c0), p1)
    requires IsElementAt(AppendChild(AppendChild(n, p0, c0), p1, c1), p2)
    requires IsElementAt(AppendChild(AppendChild(AppendChild(n, p0, c0), p1, c1), p2, c2), p3)
    ensures AppendEach(n, [p0, p1, p2, p3], [c0, c1, c2, c3])
         == AppendChild(AppendChild(AppendChild(AppendChild(n, p0, c0), p1, c1), p2, c2), p3, c3)
  {
    var s1 := AppendChild(n, p0, c0);
    var s2 := AppendChild(s1, p1, c1);
    var s3 := AppendChild(s2, p2, c2);
    assert [p0, p1, p2, p3][1..] == [p1, p2, p3] && [c0, c1, c2, c3][1..] == [c1, c2, c3];
    assert AppendEach(n, [p0, p1, p2, p3], [c0, c1, c2, c3]) == AppendEach(s1, [p1, p2, p3], [c1, c2, c3]);
    assert [p1, p2, p3][1..] == [p2, p3] && [c1, c2, c3][1..] == [c2, c3];
    assert AppendEach(s1, [p1, p2, p3], [c1, c2, c3]) == AppendEach(s2, [p2, p3], [c2, c3]);
    assert [p2, p3][1..] == [p3] && [c2, c3][1..] == [c3];
    assert AppendEach(s2, [p2, p3], [c2, c3]) == AppendEach(s3, [p3], [c3]);
    assert AppendEach(s3, [p3], [c3]) == AppendEach(AppendChild(s3, p3, c3), [], []);
  }

  /** When no target is an ancestor of (or equal to) another, each target
      element gains exactly its node as a new last child; every node outside
      the targets' subtrees, on no path to a target, is unchanged; and every
      existing node keeps its tag, classes and attributes. */
  lemma {:induction false} AppendEachAnatomy(n: Node, ps: seq<Path>, cs: seq<Node>)
    requires |ps| == |cs| && forall i :: 0 <= i < |ps| ==> IsElementAt(n, ps[i])
    requires forall i, j :: 0 <= i < |ps| && 0 <= j < |ps| && i != j ==> !IsPrefix(ps[i], ps[j])
    ensures forall i :: 0 <= i < |ps| ==> GainedChild(n, AppendEach(n, ps, cs), ps[i], cs[i])
    ensures forall q :: ValidPath(n, q) && (forall i :: 0 <= i < |ps| ==> !IsPrefix(q, ps[i])) ==>
      ValidPath(AppendEach(n, ps, cs), q) && At(AppendEach(n, ps, cs), q) == At(n, q)
    ensures forall q :: ValidPath(n, q) ==>
      ValidPath(AppendEach(n, ps, cs), q) && Shell(At(AppendEach(n, ps, cs), q)) == Shell(At(n, q))
    decreases |ps|
  {
    if ps != [] {
      var n1 := AppendChild(n, ps[0], cs[0]);
      AppendChildKeepsAllShells(n, ps[0], cs[0]);
      var ps', cs' := ps[1..], cs[1..];
      assert forall i :: 0 <= i < |ps'| ==> ps'[i] == ps[i + 1];
      AppendEachAnatomy(n1, ps', cs');
      var r := AppendEach(n, ps, cs);
      assert r == AppendEach(n1, ps', cs');
      forall i | 0 <= i < |ps|
        ensures GainedChild(n, r, ps[i], cs[i])
      {
        if i == 0 {
          forall j | 0 <= j < |ps'| ensures !IsPrefix(ps[0], ps'[j]) {
            assert ps'[j] == ps[j + 1];
          }
        } else {
          assert ps'[i - 1] == ps[i] && cs'[i - 1] == cs[i];
          AppendChildElsewhere(n, ps[0], cs[0], ps[i]);
        }
      }
      forall q | ValidPath(n, q) && (forall i :: 0 <= i < |ps| ==> !IsPrefix(q, ps[i]))
        ensures ValidPath(r, q) && At(r, q) == At(n, q)
      {
        AppendChildElsewhere(n, ps[0], cs[0], q);
        forall j | 0 <= j < |ps'| ensures !IsPrefix(q, ps'[j]) {
          assert ps'[j] == ps[j + 1];
        }
      }
    }
  }

  /** Appending keeps every existing node at its position with its tag,
      classes and attributes. */
  lemma {:induction false} AppendChildKeepsShells(n: Node, p: Path, c: Node, q: Path)
    requires IsElementAt(n, p) && ValidPath(n, q)
    ensures ValidPath(AppendChild(n, p, c), q) && Shell(At(AppendChild(n, p, c), q)) == Shell(At(n, q))
    decreases |q|
  {
    if q != [] {
      var r := AppendChild(n, p, c);
      if p != [] && q[0] == p[0] {
        AppendChildKeepsShells(n.children[p[0]], p[1..], c, q[1..]);
      } else {
        assert r.children[q[0]] == n.children[q[0]];
      }
    }
  }

  /** Setting an attribute keeps every other node at its position with its
      tag, classes and attributes. */
  lemma {:induction false} SetAttrKeepsShells(n: Node, p: Path, key: string, value: string, q: Path)
    requires IsElementAt(n, p) && ValidPath(n, q) && q != p
    ensures ValidPath(SetAttr(n, p, key, value), q)
    ensures Shell(At(SetAttr(n, p, key, value), q)) == Shell(At(n, q))
    decreases |q|
  {
    if q != [] {
      var r := SetAttr(n, p, key, value);
      if p != [] && q[0] == p[0] {
        assert q[1..] != p[1..];
        SetAttrKeepsShells(n.children[p[0]], p[1..], key, value, q[1..]);
      } else {
        assert r.children[q[0]] == n.children[q[0]];
      }
    }
  }

  /** Appending a node that contains no match does not change what find
      reports: existing nodes keep their positions, and the new subtree adds
      no candidate. */
  lemma {:induction false} FindAfterAppend(n: Node, p: Path, c: Node, q: Query)
    requires IsElementAt(n, p) && !Contains(c, q)
    ensures FindFirst(AppendChild(n, p, c), q) == FindFirst(n, q)
    decreases n, 1, 0
  {
    FindAmongAfterAppend(n, p, c, q, 0);
  }

  lemma {:induction false} FindAmongAfterAppend(n: Node, p: Path, c: Node, q: Query, i: nat)
    requires n.Element? && IsElementAt(n, p) && !Contains(c, q) && i <= |n.children|
    ensures AppendChild(n, p, c).Element?
    ensures FindAmong(AppendChild(n, p, c), i, q) == FindAmong(n, i, q)
    decreases n, 0, |n.children| - i
  {
    var r := AppendChild(n, p, c);
    if p == [] {
      if i < |n.children| {
        assert r.children[i] == n.children[i];
        FindAmongAfterAppend(n, p, c, q, i + 1);
      } else {
        assert r.children[i] == c;
        assert FindAmong(r, i + 1, q) == None;
      }
    } else if i < |n.children| {
      if i == p[0] {
        FindAfterAppend(n.children[i], p[1..], c, q);
        assert Shell(r.children[i]) == Shell(n.children[i]);
      } else {
        assert r.children[i] == n.children[i];
      }
      FindAmongAfterAppend(n, p, c, q, i + 1);
    }
  }

  /** Setting an attribute never changes what find reports: queries look
      only at tags and classes. */
  lemma {:induction false} FindAfterSetAttr(n: Node, p: Path, key: string, value: string, q: Query)
    requires IsElementAt(n, p)
    ensures FindFirst(SetAttr(n, p, key, value), q) == FindFirst(n, q)
    decreases n, 1, 0
  {
    if n.Element? {
      FindAmongAfterSetAttr(n, p, key, value, q, 0);
    }
  }

  lemma {:induction false} FindAmongAfterSetAttr(n: Node, p: Path, key: string, value: string, q: Query, i: nat)
    requires n.Element? && IsElementAt(n, p) && i <= |n.children|
    ensures SetAttr(n, p, key, value).Element?
    ensures FindAmong(SetAttr(n, p, key, value), i, q) == FindAmong(n, i, q)
    decreases n, 0, |n.children| - i
  {
    var r := SetAttr(n, p, key, value);
    if i < |n.children| {
      if p != [] && i == p[0] {
        FindAfterSetAttr(n.children[i], p[1..], key, value, q);
      } else {
        assert r.children[i] == n.children[i];
      }
      FindAmongAfterSetAttr(n, p, key, value, q, i + 1);
    }
  }

  // ---------------------------------------------------------------------
  // links and text, as a reader of the finished page sees them
  // ---------------------------------------------------------------------

  /** An `<a>` element as a reader sees it: its target and its text. */
  datatype Link = Link(href: Option<string>, text: string)

  /** The concatenated text of a subtree. */
  function TextOf(n: Node): string
    decreases n, 1, 0
  {
    if n.Text? then n.text else TextAmong(n, 0)
  }

  function TextAmong(n: Node, i: nat): string
    requires n.Element? && i <= |n.children|
    decreases n, 0, |n.children| - i
  {
    if i == |n.children| then "" else TextOf(n.children[i]) + TextAmong(n, i + 1)
  }

  /** Every `<a>` element of a subtree, in document order. */
  function Links(n: Node): seq<Link>
    decreases n, 1, 0
  {
    if n.Text? then []
    else
      (if n.tag == "a" then [Link(if "href" in n.attrs then Some(n.attrs["href"]) else None, TextOf(n))] else [])
      + LinksAmong(n, 0)
  }

  function LinksAmong(n: Node, i: nat): seq<Link>
    requires n.Element? && i <= |n.children|
    decreases n, 0, |n.children| - i
  {
    if i == |n.children| then [] else Links(n.children[i]) + LinksAmong(n, i + 1)
  }

  // ---------------------------------------------------------------------
  // the mutable document object
  // ---------------------------------------------------------------------

  /** A parsed document that the build edits in place. */
  class Soup {
    var root: Node

    /** Wrap a parsed document (or, with `Fragment([])`, an empty one). */
    constructor (root: Node)
      ensures this.root == root
    {
      this.root := root;
    }

    /** `deepcopy(original)`: a new document that shares no state with it. */
    constructor Copy(original: Soup)
      ensures root == original.root
    {
      root := original.root;
    }

    /** `find(tag, cls)` on the whole document. */
    function Find(q: Query): Option<Path>
      reads this
    {
      FindFirst(root, q)
    }

    method Append(p: Path, child: Node)
      requires IsElementAt(root, p)
      modifies this
      ensures root == AppendChild(old(root), p, child)
    {
      root := AppendChild(root, p, child);
    }

    method SetAttribute(p: Path, key: string, value: string)
      requires IsElementAt(root, p)
      modifies this
      ensures root == SetAttr(old(root), p, key, value)
    {
      root := SetAttr(root, p, key, value);
    }
  }
}
