/**
 * Post discovery (`getLinkedInPosts`, `getCanonicalPostElement`): collect
 * the post containers on the page, lift each to its canonical container,
 * keep the visible ones the cleaner has not yet hidden or processed, and
 * keep one element per post identity.
 */
module Discovery {
  import opened Wrappers
  import opened JsText
  import opened Dom
  import opened Identity

  const Occludable := Class("occludable-update")
  const ActivityArticle := Both(Tag("article"), AttrPrefix(UrnAttr, ActivityPrefix))
  const ActivityDiv := Both(Tag("div"), AttrPrefix(UrnAttr, ActivityPrefix))

  /** The nearest occludable update container, else activity article, else activity div, else the element itself. */
  function Canonical(t: Tree, e: nat): (c: nat)
    requires WellFormed(t) && e < |t|
    ensures c <= e && (c == e || IsAncestor(t, c, e))
  {
    match Closest(t, e, Occludable)
    case Some(c) => c
    case None =>
      match Closest(t, e, ActivityArticle)
      case Some(c) => c
      case None => Closest(t, e, ActivityDiv).GetOr(e)
  }

  /** The container rule by itself: the nearest occludable container always wins over activity elements. */
  lemma CanonicalPrefersOccludable(t: Tree, e: nat, o: nat)
    requires WellFormed(t) && e < |t| && o <= e && Matches(t[o], Occludable) && (o == e || IsAncestor(t, o, e))
    ensures Matches(t[Canonical(t, e)], Occludable)
    ensures Canonical(t, e) == e || IsAncestor(t, Canonical(t, e), e)
  {
    ClosestFinds(t, e, Occludable, o);
  }

  /** `closest` finds something whenever some ancestor-or-self matches. */
  lemma {:induction false} ClosestFinds(t: Tree, e: nat, s: Selector, o: nat)
    requires WellFormed(t) && e < |t| && o <= e && Matches(t[o], s) && (o == e || IsAncestor(t, o, e))
    ensures Closest(t, e, s).Some?
    decreases e
  {
    if !Matches(t[e], s) {
      var p := t[e].parent.value;
      if o != p {
        AncestorPrecedes(t, o, p);
        ClosestFinds(t, p, s, o);
      }
    }
  }

  /** A canonical container is worth processing: not marked hidden or processed, and laid out with a positive size. */
  predicate Eligible(n: Node) {
    Attr(n, HiddenAttr) != Some("1") && Attr(n, ProcessedAttr) != Some("1") && n.height > 0.0 && n.width > 0.0
  }

  /** The candidate containers: all matches of each selector in turn, in document order (an element matching two selectors appears twice). */
  function Candidates(t: Tree): (r: seq<nat>)
    ensures InPage(t, r)
  {
    QueryAll(t, Occludable) + QueryAll(t, ActivityArticle) + QueryAll(t, ActivityDiv)
  }

  /** The canonical containers of `cands` that are eligible, in candidate order. */
  function VisibleOf(t: Tree, cands: seq<nat>): (r: seq<nat>)
    requires WellFormed(t) && InPage(t, cands)
    ensures InPage(t, r) && |r| <= |cands|
    ensures forall k :: 0 <= k < |r| ==> Eligible(t[r[k]])
    ensures forall k :: 0 <= k < |cands| && Eligible(t[Canonical(t, cands[k])]) ==> Canonical(t, cands[k]) in r
    ensures forall v :: v in r ==> exists k :: 0 <= k < |cands| && v == Canonical(t, cands[k])
    decreases |cands|
  {
    if cands == [] then []
    else
      var init := cands[..|cands| - 1];
      var c := Canonical(t, cands[|cands| - 1]);
      VisibleOf(t, init) + (if Eligible(t[c]) then [c] else [])
  }

  /** The ids of `posts`. */
  function IdsOf(t: Tree, posts: seq<nat>): (ids: seq<string>)
    requires WellFormed(t) && InPage(t, posts)
    ensures |ids| == |posts| && forall k :: 0 <= k < |posts| ==> ids[k] == PostId(t, posts[k])
  {
    seq(|posts|, k requires 0 <= k < |posts| => PostId(t, posts[k]))
  }

  /** The keys of a JavaScript `Map` after setting each of `ids` in turn: distinct, in order of first insertion. */
  function FirstSeen(ids: seq<string>): (keys: seq<string>)
    ensures forall a, b :: 0 <= a < b < |keys| ==> keys[a] != keys[b]
    ensures forall x :: x in keys <==> x in ids
    decreases |ids|
  {
    if ids == [] then []
    else
      var keys := FirstSeen(ids[..|ids| - 1]);
      if ids[|ids| - 1] in keys then keys else keys + [ids[|ids| - 1]]
  }

  /** The entries of that `Map` when `ids[j]` was set to `posts[j]`: each id holds the post of its last occurrence. */
  function LastSeen(ids: seq<string>, posts: seq<nat>): (m: map<string, nat>)
    requires |ids| == |posts|
    ensures forall x :: x in m <==> x in ids
    decreases |ids|
  {
    if ids == [] then map[]
    else
      var n := |ids| - 1;
      LastSeen(ids[..n], posts[..n])[ids[n] := posts[n]]
  }

  /**
   * Key order is order of first occurrence: for two keys, the earlier one
   * occurs in `ids` before the first occurrence of the later one.
   */
  lemma {:induction false} FirstSeenOrder(ids: seq<string>, a: nat, b: nat) returns (i: nat, j: nat)
    requires a < b < |FirstSeen(ids)|
    ensures i < j < |ids| && ids[i] == FirstSeen(ids)[a] && ids[j] == FirstSeen(ids)[b]
    ensures forall k :: 0 <= k < j ==> ids[k] != ids[j]
    decreases |ids|
  {
    var n := |ids| - 1;
    var init := FirstSeen(ids[..n]);
    if b < |init| {
      i, j := FirstSeenOrder(ids[..n], a, b);
    } else {
      j := n;
      assert ids[n] !in init && FirstSeen(ids) == init + [ids[n]];
      assert init[a] in ids[..n];
      i :| 0 <= i < n && ids[i] == init[a];
      assert ids[n] !in ids[..n];
    }
  }

  /** `Array.from(byId.values())`. */
  function Dedupe(ids: seq<string>, posts: seq<nat>): (r: seq<nat>)
    requires |ids| == |posts|
  {
    var keys := FirstSeen(ids);
    var m := LastSeen(ids, posts);
    seq(|keys|, k requires 0 <= k < |keys| => m[keys[k]])
  }

  /** What `getLinkedInPosts` returns. */
  function LinkedInPosts(t: Tree): seq<nat>
    requires WellFormed(t)
  {
    var visible := VisibleOf(t, Candidates(t));
    Dedupe(IdsOf(t, visible), visible)
  }

  /** The first loop of `getLinkedInPosts`: every selector's matches, pushed in turn. */
  method CollectCandidates(t: Tree) returns (candidates: seq<nat>)
    ensures candidates == Candidates(t)
  {
    var selectors := [Occludable, ActivityArticle, ActivityDiv];
    candidates := [];
    for s := 0 to |selectors|
      invariant candidates == if s == 0 then [] else if s == 1 then QueryAll(t, Occludable)
        else if s == 2 then QueryAll(t, Occludable) + QueryAll(t, ActivityArticle) else Candidates(t)
    {
      candidates := candidates + QueryAll(t, selectors[s]);
    }
  }

  /** The second loop: lift to the canonical container and skip the ineligible ones. */
  method KeepVisible(t: Tree, candidates: seq<nat>) returns (visible: seq<nat>)
    requires WellFormed(t) && InPage(t, candidates)
    ensures visible == VisibleOf(t, candidates)
  {
    visible := [];
    for n := 0 to |candidates|
      invariant visible == VisibleOf(t, candidates[..n])
    {
      assert candidates[..n + 1][..n] == candidates[..n];
      var canonical := Canonical(t, candidates[n]);
      if Eligible(t[canonical]) {
        visible := visible + [canonical];
      }
    }
    assert candidates[..|candidates|] == candidates;
  }

  /** The `Map` loop, then `Array.from(byId.values())`. */
  method DedupeById(t: Tree, visible: seq<nat>) returns (posts: seq<nat>)
    requires WellFormed(t) && InPage(t, visible)
    ensures posts == Dedupe(IdsOf(t, visible), visible)
  {
    ghost var ids := IdsOf(t, visible);
    var keys: seq<string> := [];
    var byId: map<string, nat> := map[];
    for n := 0 to |visible|
      invariant keys == FirstSeen(ids[..n])
      invariant byId == LastSeen(ids[..n], visible[..n])
    {
      var id := GetPostUniqueId(t, visible[n]);
      SeenStep(ids, visible, n);
      if id !in byId {
        keys := keys + [id];
      }
      byId := byId[id := visible[n]];
    }
    assert ids[..|visible|] == ids && visible[..|visible|] == visible;
    posts := MapValues(keys, byId);
  }

  /** Setting one more entry: a new key goes last, and the entry takes the new value. */
  lemma SeenStep(ids: seq<string>, posts: seq<nat>, n: nat)
    requires |ids| == |posts| && n < |ids|
    ensures FirstSeen(ids[..n + 1]) ==
      if ids[n] in LastSeen(ids[..n], posts[..n]) then FirstSeen(ids[..n]) else FirstSeen(ids[..n]) + [ids[n]]
    ensures LastSeen(ids[..n + 1], posts[..n + 1]) == LastSeen(ids[..n], posts[..n])[ids[n] := posts[n]]
  {
    assert ids[..n + 1][..n] == ids[..n];
    assert posts[..n + 1][..n] == posts[..n];
  }

  /** `Array.from(map.values())` for a map whose key order is `keys`. */
  method MapValues(keys: seq<string>, byKey: map<string, nat>) returns (values: seq<nat>)
    requires forall k :: k in keys ==> k in byKey
    ensures |values| == |keys| && forall q :: 0 <= q < |keys| ==> values[q] == byKey[keys[q]]
  {
    values := [];
    for m := 0 to |keys|
      invariant |values| == m && forall q :: 0 <= q < m ==> values[q] == byKey[keys[q]]
    {
      values := values + [byKey[keys[m]]];
    }
  }

  /** `getLinkedInPosts`. */
  method GetLinkedInPosts(t: Tree) returns (posts: seq<nat>)
    requires WellFormed(t)
    ensures posts == LinkedInPosts(t)
  {
    var candidates := CollectCandidates(t);
    var visible := KeepVisible(t, candidates);
    posts := DedupeById(t, visible);
  }

  /** `Map` semantics: the entry for an id is the value set at its last occurrence. */
  lemma {:induction false} LastSeenIsLast(ids: seq<string>, posts: seq<nat>, x: string) returns (j: nat)
    requires |ids| == |posts| && x in ids
    ensures j < |ids| && ids[j] == x && LastSeen(ids, posts)[x] == posts[j]
    ensures forall j' :: j < j' < |ids| ==> ids[j'] != x
    decreases |ids|
  {
    var n := |ids| - 1;
    if ids[n] == x {
      j := n;
    } else {
      assert x in ids[..n];
      j := LastSeenIsLast(ids[..n], posts[..n], x);
    }
  }

  /**
   * What discovery guarantees: the returned elements carry the distinct
   * identities in order of first occurrence (see `FirstSeenOrder`); each
   * is an eligible canonical container of some candidate; no two share an identity;
   * every eligible container's identity is represented; and the element
   * kept for an identity is the last eligible container carrying it.
   */
  lemma LinkedInPostsSpec(t: Tree)
    requires WellFormed(t)
    ensures InPage(t, LinkedInPosts(t))
    ensures |LinkedInPosts(t)| == |FirstSeen(IdsOf(t, VisibleOf(t, Candidates(t))))|
    ensures forall m :: 0 <= m < |LinkedInPosts(t)| ==> PostId(t, LinkedInPosts(t)[m]) == FirstSeen(IdsOf(t, VisibleOf(t, Candidates(t))))[m]
    ensures forall m :: 0 <= m < |LinkedInPosts(t)| ==> LastWithId(t, VisibleOf(t, Candidates(t)), LinkedInPosts(t)[m])
    ensures forall m :: 0 <= m < |LinkedInPosts(t)| ==> Eligible(t[LinkedInPosts(t)[m]])
    ensures forall a, b :: 0 <= a < b < |LinkedInPosts(t)| ==> PostId(t, LinkedInPosts(t)[a]) != PostId(t, LinkedInPosts(t)[b])
    ensures forall v :: v in VisibleOf(t, Candidates(t)) ==> exists m :: 0 <= m < |LinkedInPosts(t)| && PostId(t, LinkedInPosts(t)[m]) == PostId(t, v)
  {
    var visible := VisibleOf(t, Candidates(t));
    var ids := IdsOf(t, visible);
    var keys := FirstSeen(ids);
    var r := LinkedInPosts(t);
    forall m | 0 <= m < |r|
      ensures r[m] < |t| && PostId(t, r[m]) == keys[m] && LastWithId(t, visible, r[m]) && Eligible(t[r[m]])
    {
      var j := LastSeenIsLast(ids, visible, keys[m]);
      assert r[m] == visible[j];
      assert forall j' :: j < j' < |visible| ==> PostId(t, visible[j']) != PostId(t, r[m]) by {
        forall j' | j < j' < |visible| ensures PostId(t, visible[j']) != PostId(t, r[m]) {
          assert ids[j'] != keys[m];
        }
      }
    }
    forall v | v in visible
      ensures exists m :: 0 <= m < |r| && PostId(t, r[m]) == PostId(t, v)
    {
      var j :| 0 <= j < |visible| && visible[j] == v;
      assert ids[j] in keys;
      var m :| 0 <= m < |keys| && keys[m] == ids[j];
      assert PostId(t, r[m]) == PostId(t, v);
    }
  }

  /** `p` occurs in `visible`, and no later element of `visible` has the same identity. */
  predicate LastWithId(t: Tree, visible: seq<nat>, p: nat)
    requires WellFormed(t) && InPage(t, visible) && p < |t|
  {
    exists j :: 0 <= j < |visible| && visible[j] == p && forall j' :: j < j' < |visible| ==> PostId(t, visible[j']) != PostId(t, p)
  }
}
