/**
 * The string clean-ups of the feed cleaner: `collapseDuplicate`,
 * `normalizeName` and `isMutedByWords`. Each regular expression of the
 * source is stated as an explicit predicate on positions that follows the
 * leftmost, greedy matching JavaScript performs for that pattern.
 */
module Normalize {
  import opened Wrappers
  import opened JsText

  // --- collapseDuplicate ---

  /** The halves `collapseDuplicate` compares are equal (for odd lengths the middle character is skipped). */
  predicate HalvesEqual(text: string) {
    var mid := |text| / 2;
    text[..mid] == (if |text| % 2 == 0 then text[mid..] else text[mid + 1..])
  }

  /** `collapseDuplicate(text)`: the trimmed first half when the halves are equal, else the text. */
  function CollapseDuplicate(text: string): string {
    if HalvesEqual(text) then Trim(text[..|text| / 2]) else text
  }

  /** The halves are equal exactly when the text is `x + x` or `x + c + x`. */
  lemma HalvesEqualShape(text: string)
    ensures HalvesEqual(text) <==>
      (exists x: string :: text == x + x) || (exists x: string, c: char :: text == x + [c] + x)
  {
    var mid := |text| / 2;
    if HalvesEqual(text) {
      if |text| % 2 == 0 {
        assert text == text[..mid] + text[..mid];
      } else {
        assert text == text[..mid] + [text[mid]] + text[..mid];
      }
    }
    if exists x: string :: text == x + x {
      var x: string :| text == x + x;
      assert text[..mid] == x && text[mid..] == x;
    }
    if exists x: string, c: char :: text == x + [c] + x {
      var x: string, c: char :| text == x + [c] + x;
      assert text[..mid] == x && text[mid + 1..] == x;
    }
  }

  /** `x + x` collapses to `x`, trimmed. */
  lemma CollapseDoubled(x: string)
    ensures CollapseDuplicate(x + x) == Trim(x)
  {
    assert (x + x)[..|x|] == x && (x + x)[|x|..] == x;
  }

  /** `x + c + x` collapses to `x`, trimmed: the middle character is dropped. */
  lemma CollapseWithMiddle(x: string, c: char)
    ensures CollapseDuplicate(x + [c] + x) == Trim(x)
  {
    var t := x + [c] + x;
    assert |t| == 2 * |x| + 1;
    assert |t| / 2 == |x| && |t| % 2 == 1;
    assert t[..|x|] == x && t[|x| + 1..] == x;
  }

  /** A single character is `"" + c + ""` and so collapses to the empty string. */
  lemma CollapseSingleChar(c: char)
    ensures CollapseDuplicate([c]) == ""
  {
    CollapseWithMiddle([], c);
    assert [] + [c] + [] == [c];
  }

  /** The result is the text itself or a trimmed proper prefix of at most half its length. */
  lemma CollapseShrinks(text: string)
    ensures CollapseDuplicate(text) == text || |CollapseDuplicate(text)| <= |text| / 2
  {
  }

  // --- isMutedByWords ---

  /** `isMutedByWords`: some non-empty word of the list occurs in the lowercased content; the words themselves are not lowercased. */
  predicate IsMutedByWords(muteWords: seq<string>, content: string) {
    |muteWords| != 0 && exists k :: 0 <= k < |muteWords| && muteWords[k] != [] && Includes(Lower(content), muteWords[k])
  }

  /** Lowercasing does not produce uppercase ASCII letters. */
  lemma LowerHasNoUpper(s: string)
    ensures forall k :: 0 <= k < |Lower(s)| ==> !IsUpper(Lower(s)[k])
  {
  }

  /** A mute word holding an uppercase ASCII letter can never match, since only the content is lowercased. */
  lemma UppercaseWordNeverMatches(word: string, content: string, u: nat)
    requires u < |word| && IsUpper(word[u])
    ensures !Includes(Lower(content), word)
  {
    if Includes(Lower(content), word) {
      var i :| 0 <= i <= |Lower(content)| && OccursAt(Lower(content), word, i);
      assert word[u] == Lower(content)[i + u];
      LowerHasNoUpper(content);
    }
  }

  /** Only the non-empty words count: a list of empty words, or no list, mutes nothing. */
  lemma EmptyWordsNeverMute(muteWords: seq<string>, content: string)
    requires forall k :: 0 <= k < |muteWords| ==> muteWords[k] == []
    ensures !IsMutedByWords(muteWords, content)
  {
  }

  /** Matching ignores the case of the content. */
  lemma MuteIgnoresContentCase(muteWords: seq<string>, content: string)
    ensures IsMutedByWords(muteWords, content) == IsMutedByWords(muteWords, Lower(content))
  {
    assert Lower(Lower(content)) == Lower(content);
  }

  /** For instance the word "crypto" mutes "Buy CRYPTO now", but "Crypto" does not. */
  lemma MuteExample()
    ensures IsMutedByWords(["crypto"], "Buy CRYPTO now")
    ensures !IsMutedByWords(["Crypto"], "Buy CRYPTO now")
  {
    var lowered := Lower("Buy CRYPTO now");
    assert lowered[4..10] == "crypto";
    assert OccursAt(lowered, "crypto", 4);
    assert Includes(lowered, "crypto");
    assert ["crypto"][0] == "crypto";
    UppercaseWordNeverMatches("Crypto", "Buy CRYPTO now", 0);
  }

  // --- normalizeName ---

  const Bullet: char := '•'

  /** `/\s*•.*$/` matches at `p`: a whitespace run, a bullet, then no line terminator up to the end. */
  predicate BulletAt(t: string, p: nat) {
    p <= |t| &&
    var q := p + WsRun(t[p..]);
    q < |t| && t[q] == Bullet && forall k :: q < k < |t| ==> !IsLineTerminator(t[k])
  }

  /** The leftmost position at or after `p` where the bullet section starts. */
  function BulletFrom(t: string, p: nat): (r: Option<nat>)
    ensures r.Some? ==> p <= r.value < |t| && BulletAt(t, r.value)
    ensures forall k: nat :: p <= k && (r.None? || k < r.value) ==> !BulletAt(t, k)
    decreases |t| - p
  {
    if p >= |t| then None
    else if BulletAt(t, p) then Some(p)
    else BulletFrom(t, p + 1)
  }

  /** `t.replace(/\s*•.*$/, '')`: the trailing bullet section removed. */
  function CutBullet(t: string): string {
    match BulletFrom(t, 0)
    case None => t
    case Some(p) => t[..p]
  }

  /** `\b` after a word character at `e`: the end of the text or a non-word character. */
  predicate WordEndsAt(t: string, e: nat) {
    e == |t| || (e < |t| && !IsWordChar(t[e]))
  }

  /** `/\s+\d+(st|nd|rd|th)\b/` matches at `p`; the result is where the match ends. */
  function OrdinalAt(t: string, p: nat): (r: Option<nat>)
    ensures r.Some? ==> p < r.value <= |t|
  {
    if p >= |t| then None
    else
      var q := p + WsRun(t[p..]);
      var r := q + DigitRun(t[q..], 10);
      if q > p && r > q && r + 2 <= |t| && t[r..r + 2] in ["st", "nd", "rd", "th"] && WordEndsAt(t, r + 2) then Some(r + 2)
      else None
  }

  /** Where a `.*` starting at `k` stops: the first line terminator at or after `k`, else the end. */
  function LineEnd(t: string, k: nat): (e: nat)
    requires k <= |t|
    ensures k <= e <= |t|
    ensures forall i :: k <= i < e ==> !IsLineTerminator(t[i])
    ensures e < |t| ==> IsLineTerminator(t[e])
    decreases |t| - k
  {
    if k == |t| || IsLineTerminator(t[k]) then k else LineEnd(t, k + 1)
  }

  /** The leftmost connection-level match at or after `p`, as its start and the end of its suffix. */
  function OrdinalFrom(t: string, p: nat): (r: Option<(nat, nat)>)
    ensures r.Some? ==> p <= r.value.0 && OrdinalAt(t, r.value.0) == Some(r.value.1)
    ensures forall k: nat :: p <= k && (r.None? || k < r.value.0) ==> OrdinalAt(t, k).None?
    decreases |t| - p
  {
    if p >= |t| then None
    else match OrdinalAt(t, p)
      case Some(e) => Some((p, e))
      case None => OrdinalFrom(t, p + 1)
  }

  /** `t.replace(/\s+\d+(st|nd|rd|th)\b.*\/, '')`: the connection level and the rest of its line removed. */
  function CutOrdinal(t: string): string {
    match OrdinalFrom(t, 0)
    case None => t
    case Some((p, e)) => t[..p] + t[LineEnd(t, e)..]
  }

  /** `compact.match(/^(.+?)\1$/)`: the unit `x` when the text is a non-empty `x + x` with no line terminator. */
  function RepeatedUnit(c: string): (m: Option<string>)
    ensures m.Some? ==> m.value != [] && c == m.value + m.value
  {
    var h := |c| / 2;
    if h >= 1 && |c| % 2 == 0 && c[..h] == c[h..] && forall k :: 0 <= k < h ==> !IsLineTerminator(c[k]) then
      assert c == c[..h] + c[h..];
      Some(c[..h])
    else None
  }

  /** Every non-empty doubled text without line terminators is recognised, with its unit. */
  lemma RepeatedUnitOfDoubled(x: string)
    requires x != [] && forall k :: 0 <= k < |x| ==> !IsLineTerminator(x[k])
    ensures RepeatedUnit(x + x) == Some(x)
  {
    assert (x + x)[..|x|] == x && (x + x)[|x|..] == x;
  }

  /** The bullet, connection-level and spacing clean-up that comes first. */
  function NameCuts(raw: string): string {
    Trim(ReplaceWsRuns(CutOrdinal(CutBullet(Trim(raw))), 2, " "))
  }

  /** The token-halves check, then the compact-duplicate check, on the cleaned name `t`. */
  function CollapseName(t: string): string {
    var tokens := SplitWs(t);
    var half := |tokens| / 2;
    var t1 := if |tokens| % 2 == 0 && Join(tokens[..half], " ") == Join(tokens[half..], " ") then Join(tokens[..half], " ") else t;
    var t2 :=
      match RepeatedUnit(ReplaceWsRuns(t1, 1, ""))
      case None => t1
      case Some(x) => if |tokens| >= 2 then Join(tokens[..half], " ") else x;
    Trim(t2)
  }

  /** `normalizeName(raw)`. */
  function NormalizeName(raw: string): string {
    if raw == [] then [] else CollapseName(NameCuts(raw))
  }

  /** A name word: non-empty, no whitespace and no bullet. */
  predicate NameWord(w: string) {
    w != [] && NoWhitespace(w) && Bullet !in w
  }

  /** The words of a plain name: at least one, none starting with a digit (so nothing reads as a connection level). */
  predicate PlainName(ws: seq<string>) {
    |ws| >= 1 && forall i :: 0 <= i < |ws| ==> NameWord(ws[i]) && !IsDigit(ws[i][0])
  }

  /** Every whitespace character is followed by a non-whitespace non-digit character. */
  predicate WordAfterEverySpace(s: string) {
    forall k :: 0 <= k < |s| && IsWhitespace(s[k]) ==> k + 1 < |s| && !IsWhitespace(s[k + 1]) && !IsDigit(s[k + 1])
  }

  /** The words of a plain name joined by single spaces. */
  lemma {:induction false} JoinedNameShape(ws: seq<string>)
    requires PlainName(ws)
    ensures Join(ws, " ") != [] && Join(ws, " ")[0] == ws[0][0]
    ensures !IsWhitespace(Join(ws, " ")[0]) && !IsWhitespace(Join(ws, " ")[|Join(ws, " ")| - 1])
    ensures Bullet !in Join(ws, " ")
    ensures WordAfterEverySpace(Join(ws, " "))
    decreases |ws|
  {
    var j := Join(ws, " ");
    if |ws| == 1 {
      assert j == ws[0];
    } else {
      var rest := Join(ws[1..], " ");
      JoinedNameShape(ws[1..]);
      assert j == ws[0] + " " + rest;
      var w := ws[0];
      assert forall k :: 0 <= k < |w| ==> j[k] == w[k];
      forall k | |w| <= k < |j| && IsWhitespace(j[k])
        ensures k + 1 < |j| && !IsWhitespace(j[k + 1]) && !IsDigit(j[k + 1])
      {
        if k == |w| {
          assert j[k + 1] == rest[0] == ws[1..][0][0];
        } else {
          assert j[k] == rest[k - |w| - 1];
        }
      }
      assert j[|j| - 1] == rest[|rest| - 1];
      assert Bullet !in rest && Bullet !in w;
    }
  }

  /** Splitting the joined words on whitespace gives the words back. */
  lemma {:induction false} SplitJoinedWords(ws: seq<string>)
    requires |ws| >= 1 && forall i :: 0 <= i < |ws| ==> NameWord(ws[i])
    ensures SplitWs(Join(ws, " ")) == ws
    decreases |ws|
  {
    if |ws| == 1 {
      SplitWsWord(ws[0], []);
      assert ws[0] + [] == ws[0];
    } else {
      var rest := Join(ws[1..], " ");
      SplitJoinedWords(ws[1..]);
      assert ws[1..][0] != [] && rest != [];
      assert rest[0] == ws[1][0] by {
        if |ws[1..]| == 1 { assert rest == ws[1]; } else { assert rest == ws[1] + " " + Join(ws[2..], " ") by { assert ws[1..][1..] == ws[2..]; } }
      }
      SplitWsWord(ws[0], " " + rest);
      assert WsRun(" " + rest) == 1;
      assert (" " + rest)[1..] == rest;
      assert SplitWs(" " + rest) == [[]] + ws[1..];
      assert Join(ws, " ") == ws[0] + (" " + rest);
      assert ws[0] + [] == ws[0];
      assert ([[]] + ws[1..])[0] == [] && ([[]] + ws[1..])[1..] == ws[1..];
      assert [ws[0]] + ws[1..] == ws;
    }
  }

  /** A plain name goes through the cuts unchanged. */
  lemma PlainNameSurvivesCuts(ws: seq<string>)
    requires PlainName(ws)
    ensures NameCuts(Join(ws, " ")) == Join(ws, " ")
  {
    var j := Join(ws, " ");
    JoinedNameShape(ws);
    TrimUnchanged(j);
    assert CutBullet(j) == j by {
      assert BulletFrom(j, 0).None? by {
        forall p: nat | p < |j| ensures !BulletAt(j, p) {
          var q := p + WsRun(j[p..]);
          if q < |j| { assert j[q] != Bullet; }
        }
      }
    }
    assert CutOrdinal(j) == j by {
      assert OrdinalFrom(j, 0).None? by {
        forall p: nat | p < |j| ensures OrdinalAt(j, p).None? {
          var w := WsRun(j[p..]);
          if w > 0 {
            assert IsWhitespace(j[p]);
            assert w == 1 by { assert j[p..][1] == j[p + 1]; }
            assert !IsDigit(j[p + 1]) && j[p + 1..][0] == j[p + 1];
          }
        }
      }
    }
    ReplaceWsRunsSingleSpaced(j, 2, " ");
  }

  /** Whatever the compact check decides, a name whose first and second token halves agree keeps the first half. */
  lemma CollapseEqualHalves(ws: seq<string>)
    requires PlainName(ws)
    ensures CollapseName(Join(ws + ws, " ")) == Join(ws, " ")
  {
    PlainNameDoubled(ws);
    SplitJoinedWords(ws + ws);
    JoinedNameShape(ws);
    TrimUnchanged(Join(ws, " "));
    CollapseTokenHalves(Join(ws + ws, " "), ws);
  }

  /** Text whose tokens are `ws` twice collapses to `ws` joined, when that is already trimmed. */
  lemma CollapseTokenHalves(t: string, ws: seq<string>)
    requires |ws| >= 1 && SplitWs(t) == ws + ws && Trim(Join(ws, " ")) == Join(ws, " ")
    ensures CollapseName(t) == Join(ws, " ")
  {
    var tokens := ws + ws;
    assert tokens[..|ws|] == ws && tokens[|ws|..] == ws;
  }

  /** A plain name said twice is a plain name. */
  lemma PlainNameDoubled(ws: seq<string>)
    requires PlainName(ws)
    ensures PlainName(ws + ws)
  {
    var both := ws + ws;
    forall i | 0 <= i < |both| ensures NameWord(both[i]) && !IsDigit(both[i][0]) {
      if i < |ws| { assert both[i] == ws[i]; } else { assert both[i] == ws[i - |ws|]; }
    }
  }

  /** `normalizeName` gives a name repeated twice as the name: "John Doe John Doe" becomes "John Doe". */
  lemma NormalizeRepeatedName(ws: seq<string>)
    requires PlainName(ws)
    ensures NormalizeName(Join(ws + ws, " ")) == Join(ws, " ")
  {
    PlainNameDoubled(ws);
    JoinedNameShape(ws + ws);
    PlainNameSurvivesCuts(ws + ws);
    CollapseEqualHalves(ws);
  }

  /**
   * A plain name comes back unchanged when neither check fires: its
   * words are not two equal halves, and its compacted form (whitespace
   * removed) is not a unit said twice. "Ann Lee AnnLee" fails the second.
   */
  lemma NormalizePlainName(ws: seq<string>)
    requires PlainName(ws)
    requires !(|ws| % 2 == 0 && Join(ws[..|ws| / 2], " ") == Join(ws[|ws| / 2..], " "))
    requires RepeatedUnit(ReplaceWsRuns(Join(ws, " "), 1, "")).None?
    ensures NormalizeName(Join(ws, " ")) == Join(ws, " ")
  {
    var j := Join(ws, " ");
    JoinedNameShape(ws);
    PlainNameSurvivesCuts(ws);
    SplitJoinedWords(ws);
    TrimUnchanged(j);
  }

  /** A single whitespace-free token `x + x` collapses to `x`: "JohnDoeJohnDoe" becomes "JohnDoe". */
  lemma NormalizeDoubledToken(x: string)
    requires NameWord(x)
    ensures NormalizeName(x + x) == x
  {
    assert NameWord(x + x);
    TokenSurvivesCuts(x + x);
    CollapseDoubledToken(x);
  }

  /** A single name word goes through the cuts unchanged. */
  lemma TokenSurvivesCuts(t: string)
    requires NameWord(t)
    ensures NameCuts(t) == t
  {
    TrimUnchanged(t);
    assert CutBullet(t) == t by {
      assert BulletFrom(t, 0).None? by {
        forall p: nat | p < |t| ensures !BulletAt(t, p) {
          var q := p + WsRun(t[p..]);
          if q < |t| { assert t[q] != Bullet; }
        }
      }
    }
    assert CutOrdinal(t) == t by {
      assert OrdinalFrom(t, 0).None? by {
        forall p: nat | p < |t| ensures OrdinalAt(t, p).None? {
          assert !IsWhitespace(t[p..][0]);
        }
      }
    }
    ReplaceWsRunsNone(t, 2, " ");
  }

  /** The doubled token is one token, and the compact check finds its unit. */
  lemma CollapseDoubledToken(x: string)
    requires NameWord(x)
    ensures CollapseName(x + x) == x
  {
    var t := x + x;
    assert NameWord(t);
    SplitJoinedWords([t]);
    assert Join([t], " ") == t;
    ReplaceWsRunsNone(t, 1, "");
    RepeatedUnitOfDoubled(x);
    TrimUnchanged(x);
  }

  /** The worked example of the source: "John Doe John Doe" normalises to "John Doe". */
  lemma NormalizeJohnDoe()
    ensures NormalizeName("John Doe John Doe") == "John Doe"
  {
    var ws := ["John", "Doe"];
    assert PlainName(ws) by {
      assert NameWord("John") && NameWord("Doe");
    }
    JohnDoeJoined();
    assert ws + ws == ["John", "Doe", "John", "Doe"];
    NormalizeRepeatedName(ws);
  }

  /** The words of the worked example, joined. */
  lemma JohnDoeJoined()
    ensures Join(["John", "Doe"], " ") == "John Doe"
    ensures Join(["John", "Doe", "John", "Doe"], " ") == "John Doe John Doe"
  {
    var both := ["John", "Doe", "John", "Doe"];
    assert both[1..] == ["Doe", "John", "Doe"] && both[1..][1..] == ["John", "Doe"] && both[1..][1..][1..] == ["Doe"];
    assert Join(["Doe"], " ") == "Doe";
    assert Join(["John", "Doe"], " ") == "John Doe";
    assert Join(["Doe", "John", "Doe"], " ") == "Doe John Doe";
  }

  /** The bullet cut stops a plain name at the whitespace before its bullet section. */
  lemma CutBulletAfterName(ws: seq<string>, rest: string)
    requires PlainName(ws) && forall k :: 0 <= k < |rest| ==> !IsLineTerminator(rest[k])
    ensures CutBullet(Join(ws, " ") + " • " + rest) == Join(ws, " ")
  {
    JoinedNameShape(ws);
    CutBulletAtSeparator(Join(ws, " "), rest);
  }

  /** The same for any text that ends in a non-blank character and holds no bullet. */
  lemma CutBulletAtSeparator(j: string, rest: string)
    requires j != [] && !IsWhitespace(j[|j| - 1]) && Bullet !in j
    requires forall k :: 0 <= k < |rest| ==> !IsLineTerminator(rest[k])
    ensures CutBullet(j + " • " + rest) == j
  {
    var raw := j + " • " + rest;
    BulletAtSeparator(j, rest);
    forall p: nat | p < |j| ensures !BulletAt(raw, p) {
      NoBulletInName(j, raw, p);
    }
    BulletFromFirst(raw, |j|);
    assert raw[..|j|] == j;
  }

  /** The separator " • " starts a bullet section that runs to the end of a one-line rest. */
  lemma BulletAtSeparator(j: string, rest: string)
    requires forall k :: 0 <= k < |rest| ==> !IsLineTerminator(rest[k])
    ensures BulletAt(j + " • " + rest, |j|)
  {
    var raw := j + " • " + rest;
    var tail := " • " + rest;
    assert raw[|j|..] == tail;
    assert tail[1..] == "• " + rest;
    assert WsRun(tail) == 1;
    forall k | |j| + 1 < k < |raw| ensures !IsLineTerminator(raw[k]) {
      if k == |j| + 2 { assert raw[k] == ' '; } else { assert raw[k] == rest[k - |j| - 3]; }
    }
  }

  /** The leftmost bullet section starts at `q` when one starts there and none before. */
  lemma BulletFromFirst(raw: string, q: nat)
    requires q < |raw| && BulletAt(raw, q) && forall p: nat :: p < q ==> !BulletAt(raw, p)
    ensures BulletFrom(raw, 0) == Some(q)
  {
  }

  /** Inside a name that ends in a non-blank character and holds no bullet, no bullet section starts. */
  lemma NoBulletInName(j: string, raw: string, p: nat)
    requires j != [] && !IsWhitespace(j[|j| - 1]) && Bullet !in j && j <= raw && p < |j|
    ensures !BulletAt(raw, p)
  {
    var n := WsRun(raw[p..]);
    assert raw[p + n] == j[p + n];
  }

  /** The bullet section after a plain name (" • 2nd", " • Follow") never affects the result. */
  lemma BulletSectionDropped(ws: seq<string>, rest: string)
    requires PlainName(ws)
    requires rest != [] && !IsWhitespace(rest[|rest| - 1]) && forall k :: 0 <= k < |rest| ==> !IsLineTerminator(rest[k])
    ensures NormalizeName(Join(ws, " ") + " • " + rest) == NormalizeName(Join(ws, " "))
  {
    var j := Join(ws, " ");
    var raw := j + " • " + rest;
    JoinedNameShape(ws);
    assert raw[0] == j[0] && raw[|raw| - 1] == rest[|rest| - 1];
    TrimUnchanged(raw);
    TrimUnchanged(j);
    CutBulletAfterName(ws, rest);
    PlainNameSurvivesCuts(ws);
    assert NameCuts(raw) == NameCuts(j);
  }
}
