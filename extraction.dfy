/**
 * Post extraction (`extractPostContent`): the post text and the author's
 * name, role and avatar, from the texts the post's subtree offers.
 */
module Extraction {
  import opened Wrappers
  import opened JsText
  import opened Dom
  import opened Normalize
  import opened Role

  /** What `extractPostContent` returns. */
  datatype PostData = PostData(
    content: string,
    author: string,      // authorName, or "Unknown"
    authorName: string,
    authorRole: string,
    authorAvatar: string)

  /** The loop over the body selectors: each matched text trimmed and followed by a space. */
  function BodyText(texts: seq<string>): string
    decreases |texts|
  {
    if texts == [] then [] else BodyText(texts[..|texts| - 1]) + Trim(texts[|texts| - 1]) + " "
  }

  /** The longest name accepted from a fallback selector is 119 characters. */
  const MaxNameLength: nat := 120

  /** The first fallback name text whose normalised form has between 2 and 119 characters, else ''. */
  function FallbackName(texts: seq<string>): (name: string)
    ensures name == [] || 1 < |name| < MaxNameLength
    decreases |texts|
  {
    if texts == [] then []
    else
      var t := if texts[0] != [] then NormalizeName(texts[0]) else [];
      if 1 < |t| < MaxNameLength then t else FallbackName(texts[1..])
  }

  /** The author name: from the name link when it has text, else from the fallback selectors. */
  function AuthorNameOf(raw: RawPost): string {
    if raw.directAnchor.Some? && raw.directAnchor.value != [] then NormalizeName(raw.directAnchor.value)
    else FallbackName(raw.nameTexts)
  }

  /** The first non-empty text, else ''. */
  function FirstNonEmpty(texts: seq<string>): (r: string)
    ensures r == [] <==> forall k :: 0 <= k < |texts| ==> texts[k] == []
    decreases |texts|
  {
    if texts == [] then [] else if texts[0] != [] then texts[0] else FirstNonEmpty(texts[1..])
  }

  /** The author role: the first role text, trimmed, then normalised unless empty. */
  function AuthorRoleOf(raw: RawPost, authorName: string): string {
    var r := Trim(FirstNonEmpty(raw.roleTexts));
    if r == [] then [] else RoleOf(r, authorName)
  }

  /** `extractPostContent(post)`. */
  function ExtractPostContent(raw: RawPost): (d: PostData)
    ensures d.author != []
    ensures d.authorName != [] ==> d.author == d.authorName
    ensures d.authorName == [] ==> d.author == "Unknown"
    ensures |d.authorRole| <= MaxRoleLength + 1
    ensures d.content == [] || (!IsWhitespace(d.content[0]) && !IsWhitespace(d.content[|d.content| - 1]))
  {
    var name := AuthorNameOf(raw);
    PostData(Trim(BodyText(raw.bodyTexts)), if name != [] then name else "Unknown", name, AuthorRoleOf(raw, name), raw.avatar)
  }

  /** Appending after a string that is not all whitespace leaves its leading trim alone. */
  lemma {:induction false} TrimStartAppend(s: string, x: string)
    requires TrimStart(s) != []
    ensures TrimStart(s + x) == TrimStart(s) + x
    decreases |s|
  {
    if IsWhitespace(s[0]) {
      assert (s + x)[1..] == s[1..] + x;
      TrimStartAppend(s[1..], x);
    }
  }

  /** Trailing whitespace does not survive a trim. */
  lemma TrimDropsTrailingSpace(s: string)
    ensures Trim(s + " ") == Trim(s)
  {
    var t := TrimStart(s + " ");
    if TrimStart(s) == [] {
      assert forall k :: 0 <= k < |s| ==> IsWhitespace(s[k]);
      assert t == [] || t == " ";
    } else {
      TrimStartAppend(s, " ");
      assert TrimEnd(t) == TrimEnd(TrimStart(s));
    }
  }

  /** With one body text the content is that text, trimmed. */
  lemma SingleBodyText(raw: RawPost, text: string)
    requires raw.bodyTexts == [text]
    ensures ExtractPostContent(raw).content == Trim(text)
  {
    assert BodyText([text]) == Trim(text) + " ";
    TrimDropsTrailingSpace(Trim(text));
    assert Trim(Trim(text)) == Trim(text) by { TrimUnchanged(Trim(text)); }
  }
}
