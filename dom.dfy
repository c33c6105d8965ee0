/**
 * The part of the document tree the feed cleaner reads and writes.
 *
 * A page is the sequence of its elements in document order; each element
 * names its parent by position, and a parent always comes before its
 * children. An element is a record of what the cleaner looks at: tag name,
 * attributes, classes, inline `display`, rendered size, rendered text, the
 * author-block texts that post extraction reads, and two facts about nodes
 * the cleaner itself inserts: the hide indicator placed just before the
 * element and the score badge placed inside it.
 */
module Dom {
  import opened Wrappers
  import opened JsText

  /** The texts post extraction reads out of one post's subtree. */
  datatype RawPost = RawPost(
    bodyTexts: seq<string>,          // innerText of the first match of each body-text selector that matched
    directAnchor: Option<string>,    // textContent of the author-name link, when there is one
    nameTexts: seq<string>,          // textContent of the first match of each fallback name selector
    roleTexts: seq<string>,          // textContent of the first match of each role selector
    avatar: string)                  // first non-empty avatar source, or ''

  /** The indicator element `hidePost` inserts in front of a hidden post. */
  datatype Indicator = Indicator(
    authorName: string,
    authorRole: string,
    authorAvatar: string,
    preview: string,
    explanation: string,
    scoreText: string)

  /** The score badge `addScoreIndicator` appends; `host` is the element it was appended to. */
  datatype Badge = Badge(text: string, host: nat)

  datatype Node = Node(
    parent: Option<nat>,
    tag: string,
    attrs: map<string, string>,
    classes: set<string>,
    display: string,
    width: real,
    height: real,
    innerText: string,
    raw: RawPost,
    indicator: Option<Indicator>,
    badge: Option<Badge>)

  type Tree = seq<Node>

  /** The marker attributes the cleaner sets on posts it has hidden or processed. */
  const HiddenAttr := "data-linkedin-cleaner-hidden"
  const ProcessedAttr := "data-linkedin-cleaner-processed"

  /** Every position in `s` names an element of `t`. */
  predicate InPage(t: Tree, s: seq<nat>) {
    forall k :: 0 <= k < |s| ==> s[k] < |t|
  }

  /** Every parent precedes its child in document order. */
  predicate WellFormed(t: Tree) {
    forall i :: 0 <= i < |t| && t[i].parent.Some? ==> t[i].parent.value < i
  }

  /** `getAttribute(name)`: `None` is `null`. */
  function Attr(n: Node, name: string): Option<string> {
    if name in n.attrs then Some(n.attrs[name]) else None
  }

  /** The simple CSS selectors the cleaner uses. */
  datatype Selector =
    | Class(name: string)                      // .name
    | Tag(name: string)                        // name
    | AttrPrefix(attr: string, prefix: string) // [attr^="prefix"]
    | AttrContains(attr: string, infix: string) // [attr*="infix"]
    | Both(left: Selector, right: Selector)    // compound selector
    | Either(left: Selector, right: Selector)  // selector list "a, b"

  predicate Matches(n: Node, s: Selector) {
    match s
    case Class(c) => c in n.classes
    case Tag(name) => n.tag == name
    case AttrPrefix(a, p) => a in n.attrs && p != [] && StartsWith(n.attrs[a], p)
    case AttrContains(a, p) => a in n.attrs && p != [] && Includes(n.attrs[a], p)
    case Both(l, r) => Matches(n, l) && Matches(n, r)
    case Either(l, r) => Matches(n, l) || Matches(n, r)
  }

  /** Element `a` is a proper ancestor of element `j`. */
  predicate IsAncestor(t: Tree, a: nat, j: nat)
    requires WellFormed(t) && j < |t|
    decreases j
  {
    match t[j].parent
    case None => false
    case Some(p) => p == a || IsAncestor(t, a, p)
  }

  lemma {:induction false} AncestorPrecedes(t: Tree, a: nat, j: nat)
    requires WellFormed(t) && j < |t| && IsAncestor(t, a, j)
    ensures a < j
    decreases j
  {
    var p := t[j].parent.value;
    if p != a {
      AncestorPrecedes(t, a, p);
    }
  }

  /** Being an ancestor is transitive. */
  lemma {:induction false} AncestorTrans(t: Tree, a: nat, b: nat, c: nat)
    requires WellFormed(t) && b < |t| && c < |t| && IsAncestor(t, a, b) && IsAncestor(t, b, c)
    ensures IsAncestor(t, a, c)
    decreases c
  {
    var p := t[c].parent.value;
    if p != b {
      AncestorTrans(t, a, b, p);
    }
  }

  /** Element `h` is `i` itself or lies inside it. */
  predicate InSubtree(t: Tree, i: nat, h: nat)
    requires WellFormed(t) && i < |t|
  {
    h < |t| && (h == i || IsAncestor(t, i, h))
  }

  /** `element.closest(s)`: the element itself or its nearest ancestor matching `s`. */
  function Closest(t: Tree, i: nat, s: Selector): (r: Option<nat>)
    requires WellFormed(t) && i < |t|
    ensures r.Some? ==> r.value <= i && Matches(t[r.value], s) && (r.value == i || IsAncestor(t, r.value, i))
    ensures r.None? ==> !Matches(t[i], s)
    ensures r.Some? && r.value < i ==> !Matches(t[i], s)
    decreases i
  {
    if Matches(t[i], s) then Some(i)
    else match t[i].parent
      case None => None
      case Some(p) => Closest(t, p, s)
  }

  /** The first element at or after `j` that lies inside `i` and matches `s`. */
  function QueryFrom(t: Tree, i: nat, s: Selector, j: nat): (r: Option<nat>)
    requires WellFormed(t) && i < |t|
    ensures r.Some? ==> j <= r.value < |t| && IsAncestor(t, i, r.value) && Matches(t[r.value], s)
    ensures forall k :: j <= k < |t| && (r.None? || k < r.value) ==> !(IsAncestor(t, i, k) && Matches(t[k], s))
    decreases |t| - j
  {
    if j >= |t| then None
    else if IsAncestor(t, i, j) && Matches(t[j], s) then Some(j)
    else QueryFrom(t, i, s, j + 1)
  }

  /** `element.querySelector(s)`: the first descendant of `i` in document order matching `s`. */
  function QuerySelector(t: Tree, i: nat, s: Selector): Option<nat>
    requires WellFormed(t) && i < |t|
  {
    QueryFrom(t, i, s, i + 1)
  }

  /** The elements at or after `j` matching `s`, in document order. */
  function AllFrom(t: Tree, s: Selector, j: nat): (r: seq<nat>)
    ensures forall k :: 0 <= k < |r| ==> j <= r[k] < |t| && Matches(t[r[k]], s)
    ensures forall k, m :: 0 <= k < m < |r| ==> r[k] < r[m]
    ensures forall e :: j <= e < |t| && Matches(t[e], s) ==> e in r
    decreases |t| - j
  {
    if j >= |t| then []
    else if Matches(t[j], s) then [j] + AllFrom(t, s, j + 1)
    else AllFrom(t, s, j + 1)
  }

  /** `document.querySelectorAll(s)`. */
  function QueryAll(t: Tree, s: Selector): seq<nat> {
    AllFrom(t, s, 0)
  }

  /** Two pages with the same elements in the same parent-child arrangement. */
  predicate SameShape(t1: Tree, t2: Tree) {
    |t1| == |t2| && forall k :: 0 <= k < |t1| ==> t1[k].parent == t2[k].parent
  }

  lemma {:induction false} AncestorSameShape(t1: Tree, t2: Tree, a: nat, j: nat)
    requires WellFormed(t1) && WellFormed(t2) && SameShape(t1, t2) && j < |t1|
    ensures IsAncestor(t1, a, j) == IsAncestor(t2, a, j)
    decreases j
  {
    if t1[j].parent.Some? {
      AncestorSameShape(t1, t2, a, t1[j].parent.value);
    }
  }

  /** A descendant query gives the same answer on pages of the same shape that agree on what matches. */
  lemma {:induction false} QueryFromSameShape(t1: Tree, t2: Tree, i: nat, s: Selector, j: nat)
    requires WellFormed(t1) && WellFormed(t2) && SameShape(t1, t2) && i < |t1|
    requires forall k :: 0 <= k < |t1| ==> Matches(t1[k], s) == Matches(t2[k], s)
    ensures QueryFrom(t1, i, s, j) == QueryFrom(t2, i, s, j)
    decreases |t1| - j
  {
    if j < |t1| {
      AncestorSameShape(t1, t2, i, j);
      QueryFromSameShape(t1, t2, i, s, j + 1);
    }
  }
}
