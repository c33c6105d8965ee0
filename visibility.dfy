/**
 * Visibility (`hidePost`, its "Show" handler, `addScoreIndicator`): how a
 * hidden post is labelled and previewed, and how hiding, showing and
 * badging change one element.
 */
module Visibility {
  import opened Wrappers
  import opened JsText
  import opened Dom
  import opened Classification

  const BlurClass := "linkedin-cleaner-blur"
  const HiddenClass := "linkedin-cleaner-hidden"
  const BlurMode := "blur"
  const PreviewTokens: nat := 10

  /** The indicator's label: its score text and explanation. */
  datatype Label = Label(scoreText: string, explanation: string)

  /** The fixed explanation of each category the oracle flags, if `category` is one of them. */
  function FlaggedExplanation(category: string): Option<string> {
    if category == "promotional" then Some("Promotional content")
    else if category == "engagement_bait" then Some("Engagement bait")
    else if category == "entertainment" then Some("Entertainment only")
    else if category == "activity" then Some("Activity post")
    else if category == "suggestion" then Some("People suggestion")
    else None
  }

  /** The category switch of `hidePost` (`analysis.category || 'normal'`, compared with `===`). */
  function LabelOf(a: Analysis): Label {
    var category := CategoryOf(a.category);
    if category.Str? && FlaggedExplanation(category.s).Some? then Label("0/10", FlaggedExplanation(category.s).value)
    else if category == Str("muted") then Label("Muted", "Contains muted words")
    else Label(NumberToString(a.informativeness) + "/10", "Low informativeness")
  }

  /** The five flagged categories label as "0/10" whatever the score, "muted" as "Muted". */
  lemma FlaggedLabels(score: int)
    ensures LabelOf(Analysis(score, Str("promotional"))) == Label("0/10", "Promotional content")
    ensures LabelOf(Analysis(score, Str("engagement_bait"))) == Label("0/10", "Engagement bait")
    ensures LabelOf(Analysis(score, Str("entertainment"))) == Label("0/10", "Entertainment only")
    ensures LabelOf(Analysis(score, Str("activity"))) == Label("0/10", "Activity post")
    ensures LabelOf(Analysis(score, Str("suggestion"))) == Label("0/10", "People suggestion")
    ensures LabelOf(Analysis(score, Str("muted"))) == Label("Muted", "Contains muted words")
  {
  }

  /** `parseInt` reads a number's text back even when "/10" follows it. */
  lemma ParseScoreText(n: int)
    ensures ParseInt(NumberToString(n) + "/10") == Some(n)
  {
    if n < 0 {
      ParseScoreTextNegative(n);
    } else {
      ParseScoreTextNonNegative(n);
    }
  }

  lemma ParseScoreTextNegative(n: int)
    requires n < 0
    ensures ParseInt(NumberToString(n) + "/10") == Some(n)
  {
    ParseNatBeforeSlash(-n, "/10");
    ParseIntMinus(NatToString(-n) + "/10", -n);
    assert NumberToString(n) + "/10" == "-" + (NatToString(-n) + "/10");
  }

  lemma ParseScoreTextNonNegative(n: int)
    requires n >= 0
    ensures ParseInt(NumberToString(n) + "/10") == Some(n)
  {
    var t := NatToString(n) + "/10";
    ParseNatBeforeSlash(n, "/10");
    assert !IsWhitespace(t[0]);
    assert TrimStart(t) == t;
  }

  /** The decimal digits of `n` followed by a slash read back as `n`. */
  lemma ParseNatBeforeSlash(n: nat, rest: string)
    requires rest != [] && rest[0] == '/'
    ensures ParseUnsigned(NatToString(n) + rest) == Some(n)
  {
    NatToStringValue(n);
    ParseUnsignedBeforeSlash(NatToString(n), rest);
  }

  /** Digits followed by a slash: the digits are read and the rest is ignored. */
  lemma ParseUnsignedBeforeSlash(d: string, rest: string)
    requires |d| >= 1 && forall k :: 0 <= k < |d| ==> IsDigit(d[k])
    requires rest != [] && rest[0] == '/'
    ensures ParseUnsigned(d + rest) == Some(DigitsValue(d, 10) as int)
  {
    var u := d + rest;
    assert IsDigit(u[1]) || u[1] == '/' by {
      if |d| >= 2 { assert u[1] == d[1]; } else { assert u[1] == rest[0]; }
    }
    DigitRunPrefix(d, rest);
    assert u[..|d|] == d;
  }

  /** A run of digits followed by a non-digit is read up to the non-digit. */
  lemma {:induction false} DigitRunPrefix(d: string, rest: string)
    requires forall k :: 0 <= k < |d| ==> IsDigit(d[k])
    requires rest != [] && !IsDigit(rest[0])
    ensures DigitRun(d + rest, 10) == |d|
    decreases |d|
  {
    if d != [] {
      assert (d + rest)[1..] == d[1..] + rest;
      DigitRunPrefix(d[1..], rest);
    } else {
      assert d + rest == rest;
    }
  }

  /** Any other category shows the score, and the score can be read back from the label. */
  lemma DefaultLabelShowsScore(a: Analysis)
    requires !(CategoryOf(a.category).Str? && FlaggedExplanation(CategoryOf(a.category).s).Some?)
    requires CategoryOf(a.category) != Str("muted")
    ensures LabelOf(a).explanation == "Low informativeness"
    ensures ParseInt(LabelOf(a).scoreText) == Some(a.informativeness)
  {
    ParseScoreText(a.informativeness);
  }

  /** The preview: the first ten space-separated tokens, with "..." when there are more. */
  function Preview(content: string): string {
    var tokens := SplitChar(content, ' ');
    Join(tokens[..if |tokens| < PreviewTokens then |tokens| else PreviewTokens], " ")
      + (if |tokens| > PreviewTokens then "..." else "")
  }

  /** Up to ten tokens the preview is the content itself. */
  lemma PreviewShort(content: string)
    requires |SplitChar(content, ' ')| <= PreviewTokens
    ensures Preview(content) == content
  {
    var tokens := SplitChar(content, ' ');
    assert tokens[..|tokens|] == tokens;
    JoinSplit(content, ' ');
  }

  /** Beyond ten tokens the preview is the first ten tokens, which are the content up to its tenth space, then "...". */
  lemma PreviewLong(content: string)
    requires |SplitChar(content, ' ')| > PreviewTokens
    ensures |Preview(content)| >= 3 && Preview(content)[|Preview(content)| - 3..] == "..."
    ensures StartsWith(content, Preview(content)[..|Preview(content)| - 3] + " ")
    ensures SplitChar(Preview(content)[..|Preview(content)| - 3], ' ') == SplitChar(content, ' ')[..PreviewTokens]
  {
    var tokens := SplitChar(content, ' ');
    var head := Join(tokens[..PreviewTokens], " ");
    JoinSplit(content, ' ');
    JoinAt(tokens, " ", PreviewTokens);
    assert Preview(content) == head + "...";
    assert (head + "...")[..|head|] == head;
    assert content == head + " " + Join(tokens[PreviewTokens..], " ");
    assert content[..|head| + 1] == head + " ";
    SplitJoin(tokens[..PreviewTokens], ' ');
  }

  /** `hidePost` on the element: nothing when an indicator is already in front of it. */
  function HideNode(n: Node, filterMode: string, indicator: Indicator): (r: Node)
    ensures n.indicator.None? ==> Attr(r, HiddenAttr) == Some("1") && r.indicator == Some(indicator)
    ensures n.indicator.None? && filterMode == BlurMode ==> BlurClass in r.classes && r.display == n.display
    ensures n.indicator.None? && filterMode != BlurMode ==> HiddenClass in r.classes && r.display == "none"
    ensures n.indicator.None? && filterMode == BlurMode ==> (HiddenClass in r.classes <==> HiddenClass in n.classes)
    ensures n.indicator.None? && filterMode != BlurMode ==> (BlurClass in r.classes <==> BlurClass in n.classes)
    ensures n.indicator.Some? ==> r == n
    ensures r.parent == n.parent && r.innerText == n.innerText && r.badge == n.badge && r.raw == n.raw
    ensures forall a :: a != HiddenAttr ==> Attr(r, a) == Attr(n, a)
    ensures r.tag == n.tag && r.width == n.width && r.height == n.height
    ensures r.classes - {BlurClass, HiddenClass} == n.classes - {BlurClass, HiddenClass}
  {
    if n.indicator.Some? then n
    else
      var n' := if filterMode == BlurMode then n.(classes := n.classes + {BlurClass})
        else n.(display := "none", classes := n.classes + {HiddenClass});
      n'.(attrs := n'.attrs[HiddenAttr := "1"], indicator := Some(indicator))
  }

  /** The "Show" handler: undo the blur or reset `display` to '', then drop the indicator, the hidden class and the hidden marker. */
  function ShowNode(n: Node, filterMode: string): (r: Node)
    ensures r.indicator.None? && HiddenClass !in r.classes && HiddenAttr !in r.attrs
    ensures filterMode == BlurMode ==> BlurClass !in r.classes && r.display == n.display
    ensures filterMode != BlurMode ==> r.display == ""
    ensures r.parent == n.parent && r.innerText == n.innerText && r.badge == n.badge && r.raw == n.raw
    ensures forall a :: a != HiddenAttr ==> Attr(r, a) == Attr(n, a)
    ensures r.tag == n.tag && r.width == n.width && r.height == n.height
    ensures r.classes - {BlurClass, HiddenClass} == n.classes - {BlurClass, HiddenClass}
    ensures filterMode != BlurMode ==> (BlurClass in r.classes <==> BlurClass in n.classes)
  {
    var n' := if filterMode == BlurMode then n.(classes := n.classes - {BlurClass}) else n.(display := "");
    n'.(indicator := None, classes := n'.classes - {HiddenClass}, attrs := n'.attrs - {HiddenAttr})
  }

  /** An element the cleaner has not touched: no indicator, none of its classes, no hidden marker. */
  predicate Untouched(n: Node) {
    n.indicator.None? && BlurClass !in n.classes && HiddenClass !in n.classes && HiddenAttr !in n.attrs
  }

  /**
   * "Show" reverses the hide exactly when nothing was lost: in blur mode for
   * every untouched element, in hide mode only when its `display` was ''.
   */
  lemma ShowUndoesHide(n: Node, filterMode: string, indicator: Indicator)
    requires Untouched(n)
    ensures ShowNode(HideNode(n, filterMode, indicator), filterMode) == n <==> (filterMode == BlurMode || n.display == "")
  {
    var r := ShowNode(HideNode(n, filterMode, indicator), filterMode);
    if filterMode == BlurMode || n.display == "" {
      assert r.classes == n.classes;
      assert r.attrs == n.attrs;
    }
  }

  /** Hiding twice hides once: the second call sees the indicator. */
  lemma HideIdempotent(n: Node, filterMode: string, first: Indicator, second: Indicator)
    ensures HideNode(HideNode(n, filterMode, first), filterMode, second) == HideNode(n, filterMode, first)
  {
  }

  /** `.update-components-header, .feed-shared-actor, header`. */
  const HeaderSelector := Either(Either(Class("update-components-header"), Class("feed-shared-actor")), Tag("header"))

  /**
   * `post.querySelector('.linkedin-cleaner-score-badge')` finds a badge: some
   * badge is appended to `i` itself or to an element inside it.
   */
  predicate HasBadgeWithin(t: Tree, i: nat)
    requires WellFormed(t) && i < |t|
  {
    exists k :: 0 <= k < |t| && t[k].badge.Some? && InSubtree(t, i, t[k].badge.value.host)
  }

  /**
   * `addScoreIndicator`: a badge showing the score, appended to the post's
   * header if it has one, else to the post; nothing if a badge already sits
   * anywhere inside the post. The badge is recorded on the post, with the
   * element it is appended to as its host.
   */
  function AddBadge(t: Tree, i: nat, score: int): (r: Node)
    requires WellFormed(t) && i < |t|
    ensures HasBadgeWithin(t, i) ==> r == t[i]
    ensures !HasBadgeWithin(t, i) ==> r == t[i].(badge := Some(Badge(NumberToString(score) + "/10", QuerySelector(t, i, HeaderSelector).GetOr(i))))
  {
    if HasBadgeWithin(t, i) then t[i]
    else
      var host := QuerySelector(t, i, HeaderSelector).GetOr(i);
      t[i].(badge := Some(Badge(NumberToString(score) + "/10", host)))
  }

  /** The badge sits in the post: in its first header element, or on the post itself. */
  lemma BadgeHost(t: Tree, i: nat, score: int)
    requires WellFormed(t) && i < |t| && !HasBadgeWithin(t, i)
    ensures AddBadge(t, i, score).badge.Some?
    ensures var h := AddBadge(t, i, score).badge.value.host;
      h < |t| && (h == i || (IsAncestor(t, i, h) && Matches(t[h], HeaderSelector)))
    ensures ParseInt(AddBadge(t, i, score).badge.value.text) == Some(score)
  {
    ParseScoreText(score);
  }

  /**
   * A badge inside the post, even one placed for another post nested in it,
   * keeps the post from getting a badge of its own.
   */
  lemma NestedBadgeBlocks(t: Tree, i: nat, k: nat, score: int)
    requires WellFormed(t) && i < |t| && InSubtree(t, i, k)
    requires t[k].badge.Some? && InSubtree(t, k, t[k].badge.value.host)
    ensures AddBadge(t, i, score) == t[i]
  {
    var h := t[k].badge.value.host;
    if k != i && h != k {
      AncestorTrans(t, i, k, h);
    }
    assert InSubtree(t, i, h);
  }

  /** Badging twice (even with another score) badges once. */
  lemma BadgeIdempotent(t: Tree, i: nat, first: int, second: int)
    requires WellFormed(t) && i < |t|
    ensures AddBadge(t[i := AddBadge(t, i, first)], i, second) == AddBadge(t, i, first)
  {
    var t' := t[i := AddBadge(t, i, first)];
    assert WellFormed(t');
    if !HasBadgeWithin(t, i) {
      var h := t'[i].badge.value.host;
      assert h < |t| && (h == i || IsAncestor(t, i, h));
      if h != i {
        AncestorSameShape(t, t', i, h);
      }
      assert InSubtree(t', i, h);
    } else {
      assert t' == t;
    }
  }
}
