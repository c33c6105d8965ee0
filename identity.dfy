/**
 * Post identity (`getPostUniqueId`): a post is known by its activity URN,
 * else by its activity data-id, else by a 32-bit rolling hash of the first
 * 300 characters of its whitespace-collapsed text.
 */
module Identity {
  import opened Wrappers
  import opened JsText
  import opened Dom

  const TwoTo31: int := 0x8000_0000
  const TwoTo32: int := 0x1_0000_0000

  const UrnAttr := "data-urn"
  const DataIdAttr := "data-id"
  const ActivityPrefix := "urn:li:activity:"
  /** How many characters of the collapsed text the hash reads. */
  const HashedLength := 300

  /** `x | 0` (ToInt32): `x` reduced modulo 2^32 into the signed 32-bit range. */
  function Wrap32(x: int): (r: int)
    ensures -TwoTo31 <= r < TwoTo31
    ensures (x - r) % TwoTo32 == 0
  {
    (x + TwoTo31) % TwoTo32 - TwoTo31
  }

  /** Wrapping an intermediate sum does not change the wrapped total. */
  lemma Wrap32Absorbs(a: int, b: int)
    ensures Wrap32(Wrap32(a) + b) == Wrap32(a + b)
  {
    var q := (a + TwoTo31) / TwoTo32;
    assert Wrap32(a) == a - q * TwoTo32;
    assert (a + b + TwoTo31 - q * TwoTo32) % TwoTo32 == (a + b + TwoTo31) % TwoTo32;
  }

  /** The rolling hash: `hash * 31 + code unit`, wrapped to signed 32 bits after every character. */
  function HashOf(text: string): (h: int)
    ensures -TwoTo31 <= h < TwoTo31
    decreases |text|
  {
    if text == [] then 0 else Wrap32(31 * HashOf(text[..|text| - 1]) + text[|text| - 1] as int)
  }

  /** The text the hash reads: `innerText.replace(/\s+/g, ' ').trim().slice(0, 300)`. */
  function HashKey(innerText: string): (k: string)
    ensures |k| <= HashedLength
  {
    var c := Trim(ReplaceWsRuns(innerText, 1, " "));
    if |c| <= HashedLength then c else c[..HashedLength]
  }

  /** The hash loop of `getPostUniqueId`, with its shift-and-subtract step. */
  method TextHash(text: string) returns (hash: int)
    ensures hash == HashOf(text)
  {
    hash := 0;
    var i := 0;
    while i < |text|
      invariant 0 <= i <= |text|
      invariant hash == HashOf(text[..i])
    {
      ghost var previous := hash;
      var shifted := Wrap32(hash * 32);             // hash << 5
      hash := Wrap32(shifted - hash + text[i] as int); // (...) | 0
      Wrap32Absorbs(previous * 32, text[i] as int - previous);
      assert text[..i + 1][..i] == text[..i];
      i := i + 1;
    }
    assert text[..i] == text;
  }

  /** A truthy attribute value: present and not empty. */
  predicate TruthyAttr(v: Option<string>) {
    v.Some? && v.value != []
  }

  /** The URN used for identity: the element's own `data-urn`, else the first descendant's activity URN. */
  function UrnOf(t: Tree, i: nat): Option<string>
    requires WellFormed(t) && i < |t|
  {
    var node := if TruthyAttr(Attr(t[i], UrnAttr)) then Some(i) else QuerySelector(t, i, AttrPrefix(UrnAttr, ActivityPrefix));
    if node.Some? then Attr(t[node.value], UrnAttr) else None
  }

  /** The data-id used for identity: the element's own `data-id`, else the first descendant's containing an activity URN. */
  function DataIdOf(t: Tree, i: nat): Option<string>
    requires WellFormed(t) && i < |t|
  {
    var node := if TruthyAttr(Attr(t[i], DataIdAttr)) then Some(i) else QuerySelector(t, i, AttrContains(DataIdAttr, ActivityPrefix));
    if node.Some? then Attr(t[node.value], DataIdAttr) else None
  }

  /** The identity `getPostUniqueId` gives element `i`. */
  function PostId(t: Tree, i: nat): string
    requires WellFormed(t) && i < |t|
  {
    var urn := UrnOf(t, i);
    if TruthyAttr(urn) then "urn:" + urn.value
    else
      var dataId := DataIdOf(t, i);
      if TruthyAttr(dataId) then "dataid:" + dataId.value
      else "txt:" + NumberToString(HashOf(HashKey(t[i].innerText)))
  }

  /** `getPostUniqueId`, computing the text hash with its loop. */
  method GetPostUniqueId(t: Tree, i: nat) returns (id: string)
    requires WellFormed(t) && i < |t|
    ensures id == PostId(t, i)
  {
    var urn := UrnOf(t, i);
    if TruthyAttr(urn) {
      return "urn:" + urn.value;
    }
    var dataId := DataIdOf(t, i);
    if TruthyAttr(dataId) {
      return "dataid:" + dataId.value;
    }
    var hash := TextHash(HashKey(t[i].innerText));
    id := "txt:" + NumberToString(hash);
  }

  /** Two pages of the same shape whose elements agree on everything identity reads. */
  predicate SameIdentityData(t1: Tree, t2: Tree) {
    SameShape(t1, t2) &&
    forall k :: 0 <= k < |t1| ==>
      Attr(t1[k], UrnAttr) == Attr(t2[k], UrnAttr) &&
      Attr(t1[k], DataIdAttr) == Attr(t2[k], DataIdAttr) &&
      t1[k].innerText == t2[k].innerText
  }

  lemma SameAttrSameMatch(n1: Node, n2: Node, s: Selector)
    requires s.AttrPrefix? || s.AttrContains?
    requires Attr(n1, s.attr) == Attr(n2, s.attr)
    ensures Matches(n1, s) == Matches(n2, s)
  {
    assert (s.attr in n1.attrs) == (s.attr in n2.attrs);
  }

  /**
   * Identity is stable: re-deriving it on a page with the same shape, the
   * same identity attributes and the same text gives the same id.
   */
  lemma PostIdStable(t1: Tree, t2: Tree, i: nat)
    requires WellFormed(t1) && WellFormed(t2) && SameIdentityData(t1, t2) && i < |t1|
    ensures PostId(t1, i) == PostId(t2, i)
  {
    var urnSel := AttrPrefix(UrnAttr, ActivityPrefix);
    var idSel := AttrContains(DataIdAttr, ActivityPrefix);
    forall k | 0 <= k < |t1|
      ensures Matches(t1[k], urnSel) == Matches(t2[k], urnSel)
      ensures Matches(t1[k], idSel) == Matches(t2[k], idSel)
    {
      SameAttrSameMatch(t1[k], t2[k], urnSel);
      SameAttrSameMatch(t1[k], t2[k], idSel);
    }
    QueryFromSameShape(t1, t2, i, urnSel, i + 1);
    QueryFromSameShape(t1, t2, i, idSel, i + 1);
  }

  lemma FirstCharDecides(s: string, p: string, q: string)
    requires p != [] && q != [] && p[0] != q[0]
    ensures !(StartsWith(s, p) && StartsWith(s, q))
  {
  }

  /** The three kinds of id never collide with each other: the prefix says which rule produced the id. */
  lemma PostIdKind(t: Tree, i: nat)
    requires WellFormed(t) && i < |t|
    ensures StartsWith(PostId(t, i), "urn:") <==> TruthyAttr(UrnOf(t, i))
    ensures StartsWith(PostId(t, i), "dataid:") <==> !TruthyAttr(UrnOf(t, i)) && TruthyAttr(DataIdOf(t, i))
    ensures StartsWith(PostId(t, i), "txt:") <==> !TruthyAttr(UrnOf(t, i)) && !TruthyAttr(DataIdOf(t, i))
  {
    var id := PostId(t, i);
    FirstCharDecides(id, "urn:", "dataid:");
    FirstCharDecides(id, "urn:", "txt:");
    FirstCharDecides(id, "dataid:", "txt:");
    if TruthyAttr(UrnOf(t, i)) {
      assert id[..4] == "urn:";
    } else if TruthyAttr(DataIdOf(t, i)) {
      assert id[..7] == "dataid:";
    } else {
      assert id[..4] == "txt:";
    }
  }

  /** A post with its own activity URN is known by it, whatever its descendants or text say. */
  lemma OwnUrnWins(t: Tree, i: nat)
    requires WellFormed(t) && i < |t| && TruthyAttr(Attr(t[i], UrnAttr))
    ensures PostId(t, i) == "urn:" + t[i].attrs[UrnAttr]
  {
  }

  /**
   * A post without a URN of its own takes the first activity URN among its
   * descendants in document order.
   */
  lemma {:induction false} DescendantUrn(t: Tree, i: nat, d: nat)
    requires WellFormed(t) && i < d < |t| && !TruthyAttr(Attr(t[i], UrnAttr))
    requires IsAncestor(t, i, d) && UrnAttr in t[d].attrs && StartsWith(t[d].attrs[UrnAttr], ActivityPrefix)
    requires forall k :: i < k < d && IsAncestor(t, i, k) ==> !(UrnAttr in t[k].attrs && StartsWith(t[k].attrs[UrnAttr], ActivityPrefix))
    ensures PostId(t, i) == "urn:" + t[d].attrs[UrnAttr]
  {
    var r := QuerySelector(t, i, AttrPrefix(UrnAttr, ActivityPrefix));
    assert Matches(t[d], AttrPrefix(UrnAttr, ActivityPrefix));
    assert r == Some(d);
    assert StartsWith(t[d].attrs[UrnAttr], ActivityPrefix);
    assert t[d].attrs[UrnAttr] != [];
  }

  /** Without any URN or data-id, two posts whose collapsed texts agree on their first 300 characters get the same id. */
  lemma TextIdReadsPrefix(t: Tree, i: nat, j: nat)
    requires WellFormed(t) && i < |t| && j < |t|
    requires !TruthyAttr(UrnOf(t, i)) && !TruthyAttr(DataIdOf(t, i))
    requires !TruthyAttr(UrnOf(t, j)) && !TruthyAttr(DataIdOf(t, j))
    requires HashKey(t[i].innerText) == HashKey(t[j].innerText)
    ensures PostId(t, i) == PostId(t, j)
  {
  }

  /** The text hash is not injective: "Aa" and "BB" collide, so two different text-only posts can share an id. */
  lemma HashCollision()
    ensures "Aa" != "BB" && HashOf("Aa") == HashOf("BB")
  {
    assert [] + ['A'] == "A" && "A" + ['a'] == "Aa";
    assert [] + ['B'] == "B" && "B" + ['B'] == "BB";
    HashStep([], 'A');
    Wrap32InRange(65);
    HashStep("A", 'a');
    Wrap32InRange(2112);
    HashStep([], 'B');
    Wrap32InRange(66);
    HashStep("B", 'B');
  }

  /** Wrapping leaves a value already in the signed 32-bit range alone. */
  lemma Wrap32InRange(x: int)
    requires -TwoTo31 <= x < TwoTo31
    ensures Wrap32(x) == x
  {
  }

  /** One more character: multiply by 31, add its code unit, wrap. */
  lemma HashStep(s: string, c: char)
    ensures HashOf(s + [c]) == Wrap32(31 * HashOf(s) + c as int)
  {
    assert (s + [c])[..|s|] == s;
  }
}
