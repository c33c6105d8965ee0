/**
 * `normalizeRole`: the author's sub-description is split into segments at
 * bullets, pipes, dashes and sentence ends; segments naming the author,
 * connection levels, durations and other metadata, and generic tags are
 * dropped; the rest are de-duplicated ignoring case, joined with ", " and
 * cut to 160 characters plus an ellipsis.
 */
module Role {
  import opened Wrappers
  import opened JsText
  import opened Normalize

  // --- Preparing the text ---

  /** The characters of `[·•]`. */
  predicate IsDot(c: char) {
    c == '\U{00B7}' || c == '•'
  }

  /** The length of the run of dot characters that `s` starts with. */
  function DotRun(s: string): (n: nat)
    ensures n <= |s|
    ensures forall k :: 0 <= k < n ==> IsDot(s[k])
    ensures n < |s| ==> !IsDot(s[n])
    decreases |s|
  {
    if s != [] && IsDot(s[0]) then 1 + DotRun(s[1..]) else 0
  }

  /** `s.replace(/[·•]+/g, ' • ')`. */
  function ReplaceDots(s: string): string
    decreases |s|
  {
    if s == [] then []
    else if IsDot(s[0]) then " • " + ReplaceDots(s[DotRun(s)..])
    else [s[0]] + ReplaceDots(s[1..])
  }

  /** The trimmed text with whitespace runs collapsed and every run of dots spaced out as " • ". */
  function Prepare(raw: string): string {
    Trim(ReplaceDots(ReplaceWsRuns(Trim(raw), 2, " ")))
  }

  // --- Splitting into segments ---

  /** The characters of `[•·\|\-–—]`. */
  predicate IsSeparator(c: char) {
    IsDot(c) || c == '|' || c == '-' || c == '–' || c == '—'
  }

  function SeparatorRun(s: string): (n: nat)
    ensures n <= |s|
    ensures forall k :: 0 <= k < n ==> IsSeparator(s[k])
    ensures n < |s| ==> !IsSeparator(s[n])
    decreases |s|
  {
    if s != [] && IsSeparator(s[0]) then 1 + SeparatorRun(s[1..]) else 0
  }

  /**
   * `/\s*[•·\|\-–—]+\s|\.(?=\s|[A-Z])/` tried at `q`: a whitespace run,
   * a run of separators and one whitespace character; or a full stop
   * followed by whitespace or an uppercase letter. The result is where the
   * match ends.
   */
  function SeparatorAt(s: string, q: nat): (r: Option<nat>)
    ensures r.Some? ==> q < r.value <= |s|
  {
    if q >= |s| then None
    else
      var w := q + WsRun(s[q..]);
      var e := w + SeparatorRun(s[w..]);
      if e > w && e < |s| && IsWhitespace(s[e]) then Some(e + 1)
      else if s[q] == '.' && q + 1 < |s| && (IsWhitespace(s[q + 1]) || IsUpper(s[q + 1])) then Some(q + 1)
      else None
  }

  /** The leftmost separator at or after `q`, as its start and end. */
  function SeparatorFrom(s: string, q: nat): (r: Option<(nat, nat)>)
    ensures r.Some? ==> q <= r.value.0 && SeparatorAt(s, r.value.0) == Some(r.value.1)
    ensures forall k: nat :: q <= k && (r.None? || k < r.value.0) ==> SeparatorAt(s, k).None?
    decreases |s| - q
  {
    if q >= |s| then None
    else match SeparatorAt(s, q)
      case Some(e) => Some((q, e))
      case None => SeparatorFrom(s, q + 1)
  }

  /** `s.split(separator)`: the pieces between successive leftmost separator matches. */
  function SplitSeparators(s: string): (parts: seq<string>)
    ensures |parts| >= 1
    decreases |s|
  {
    match SeparatorFrom(s, 0)
    case None => [s]
    case Some((q, e)) => [s[..q]] + SplitSeparators(s[e..])
  }

  /** `.map(s => s.trim()).filter(Boolean)`. */
  function TrimmedPieces(parts: seq<string>): (r: seq<string>)
    ensures forall k :: 0 <= k < |r| ==> r[k] != []
    decreases |parts|
  {
    if parts == [] then []
    else
      var rest := TrimmedPieces(parts[1..]);
      if Trim(parts[0]) == [] then rest else [Trim(parts[0])] + rest
  }

  /** The segments of a role text. */
  function Segments(raw: string): seq<string> {
    TrimmedPieces(SplitSeparators(Prepare(raw)))
  }

  // --- Segment filters ---

  /** `s` has `lit` (lowercase) at `p`, ignoring the case of ASCII letters. */
  predicate LiteralAt(s: string, lit: string, p: nat) {
    OccursAt(Lower(s), lit, p)
  }

  /** `\b` before the word character at `p`. */
  predicate WordStartsAt(s: string, p: nat)
    requires p <= |s|
  {
    p == 0 || !IsWordChar(s[p - 1])
  }

  /** The segment names the author, ignoring case. */
  predicate NamesAuthor(seg: string, author: string) {
    author != [] && Includes(Lower(seg), Lower(author))
  }

  /** `/\b\d+(st|nd|rd|th)\b/i` matches at `p`. */
  predicate OrdinalWordAt(s: string, p: nat) {
    p < |s| && WordStartsAt(s, p) &&
    var r := p + DigitRun(s[p..], 10);
    r > p && (LiteralAt(s, "st", r) || LiteralAt(s, "nd", r) || LiteralAt(s, "rd", r) || LiteralAt(s, "th", r))
    && WordEndsAt(s, r + 2)
  }

  predicate HasOrdinal(s: string) {
    exists p :: 0 <= p < |s| && OrdinalWordAt(s, p)
  }

  const Units := ["h", "hour", "hours", "d", "day", "days", "w", "week", "weeks", "mo", "month", "months", "y", "year", "years"]

  /** `\b\d+\s*(h|hour|…|years)\b` (ignoring case) matches at `p`. */
  predicate DurationAt(s: string, p: nat) {
    p < |s| && WordStartsAt(s, p) &&
    var r := p + DigitRun(s[p..], 10);
    var u := r + WsRun(s[r..]);
    r > p && exists k :: 0 <= k < |Units| && LiteralAt(s, Units[k], u) && WordEndsAt(s, u + |Units[k]|)
  }

  /** The time and metadata test: a duration, or one of the fixed phrases, ignoring case. */
  predicate IsMeta(s: string) {
    (exists p :: 0 <= p < |s| && DurationAt(s, p))
    || Includes(Lower(s), "edited") || Includes(Lower(s), "visible to anyone")
    || Includes(Lower(s), "followers") || Includes(Lower(s), "connections")
  }

  const Tags := ["premium", "influencer", "opentowork", "open to work"]

  /** `/(^|\b)(premium|influencer|opentowork|open to work)($|\b)/i` matches at `p`. */
  predicate TagAt(s: string, p: nat) {
    p <= |s| && WordStartsAt(s, p) &&
    exists k :: 0 <= k < |Tags| && LiteralAt(s, Tags[k], p) && WordEndsAt(s, p + |Tags[k]|)
  }

  predicate HasTag(s: string) {
    exists p :: 0 <= p <= |s| && TagAt(s, p)
  }

  /** The filters of the segment loop: a segment naming the author, a connection level, metadata or a generic tag is dropped. */
  predicate Dropped(seg: string, author: string) {
    NamesAuthor(seg, author) || HasOrdinal(seg) || IsMeta(seg) || HasTag(seg)
  }

  /** What the loop keeps of one segment: `None` when a filter drops it or it collapses to nothing. */
  function Keep(seg: string, author: string): (r: Option<string>)
    ensures r.Some? ==> r.value != [] && !Dropped(seg, author)
  {
    if Dropped(seg, author) then None
    else
      var c := CollapseDuplicate(Trim(ReplaceWsRuns(seg, 2, " ")));
      if c == [] then None else Some(c)
  }

  /** What the loop keeps of each segment, in order. */
  function KeptOf(segs: seq<string>, author: string): (kept: seq<Option<string>>)
    ensures |kept| == |segs| && forall k :: 0 <= k < |segs| ==> kept[k] == Keep(segs[k], author)
  {
    seq(|segs|, k requires 0 <= k < |segs| => Keep(segs[k], author))
  }

  // --- The segment loop ---

  /** The lowercase keys of the kept segments: the `seen` set. */
  function Keys(cleaned: seq<string>): set<string> {
    set c | c in cleaned :: Lower(c)
  }

  lemma KeysAppend(cleaned: seq<string>, c: string)
    ensures Keys(cleaned + [c]) == Keys(cleaned) + {Lower(c)}
  {
    assert forall x :: x in cleaned + [c] <==> x in cleaned || x == c;
  }

  /** The `cleaned` array after the loop has run over segments whose kept forms are `kept`. */
  function Cleaned(kept: seq<Option<string>>): (cleaned: seq<string>)
    ensures forall a, b :: 0 <= a < b < |cleaned| ==> Lower(cleaned[a]) != Lower(cleaned[b])
    decreases |kept|
  {
    if kept == [] then []
    else
      var prev := Cleaned(kept[..|kept| - 1]);
      match kept[|kept| - 1]
      case None => prev
      case Some(c) =>
        if Lower(c) in Keys(prev) then prev
        else
          assert forall a :: 0 <= a < |prev| ==> Lower(prev[a]) in Keys(prev);
          prev + [c]
  }

  /** The longest result before the ellipsis. */
  const MaxRoleLength: nat := 160

  /** Longer results are cut to 160 characters and get an ellipsis. */
  function Truncate(r: string): (t: string)
    ensures |t| <= MaxRoleLength + 1
    ensures |r| <= MaxRoleLength ==> t == r
    ensures |r| > MaxRoleLength ==> t == r[..MaxRoleLength] + "…"
  {
    if |r| > MaxRoleLength then r[..MaxRoleLength] + "…" else r
  }

  /** What `normalizeRole(raw, authorName)` returns. */
  function RoleOf(raw: string, author: string): string {
    if raw == [] then [] else Truncate(Join(Cleaned(KeptOf(Segments(raw), author)), ", "))
  }

  /** `normalizeRole`. */
  method NormalizeRole(raw: string, authorName: string) returns (role: string)
    ensures role == RoleOf(raw, authorName)
    ensures |role| <= MaxRoleLength + 1
  {
    if raw == [] {
      return [];
    }
    var cleaned := CleanSegments(Segments(raw), authorName);
    role := Truncate(Join(cleaned, ", "));
  }

  /** The segment loop of `normalizeRole`, over `seen` and `cleaned`. */
  method CleanSegments(segments: seq<string>, authorName: string) returns (cleaned: seq<string>)
    ensures cleaned == Cleaned(KeptOf(segments, authorName))
  {
    ghost var kept := KeptOf(segments, authorName);
    var seen: set<string> := {};
    cleaned := [];
    for n := 0 to |segments|
      invariant cleaned == Cleaned(kept[..n])
      invariant seen == Keys(cleaned)
    {
      assert kept[..n + 1][..n] == kept[..n];
      var seg := segments[n];
      if Dropped(seg, authorName) {
        assert kept[n] == None;
        continue;
      }
      seg := CollapseDuplicate(Trim(ReplaceWsRuns(seg, 2, " ")));
      if seg == [] {
        continue;
      }
      assert kept[n] == Some(seg);
      assert Cleaned(kept[..n + 1]) == if Lower(seg) in Keys(cleaned) then cleaned else cleaned + [seg];
      var key := Lower(seg);
      if key in seen {
        continue;
      }
      KeysAppend(cleaned, seg);
      seen := seen + {key};
      cleaned := cleaned + [seg];
    }
    assert kept[..|segments|] == kept;
  }

  /**
   * First-seen order: every result comes from the first kept segment with
   * its key; no earlier kept segment has that key.
   */
  lemma {:induction false} CleanedFirstSeen(kept: seq<Option<string>>, a: nat) returns (j: nat)
    requires a < |Cleaned(kept)|
    ensures j < |kept| && kept[j] == Some(Cleaned(kept)[a])
    ensures forall j' :: 0 <= j' < j && kept[j'].Some? ==> Lower(kept[j'].value) != Lower(Cleaned(kept)[a])
    decreases |kept|
  {
    var n := |kept| - 1;
    var prev := Cleaned(kept[..n]);
    var cleaned := Cleaned(kept);
    if a < |prev| {
      assert cleaned[a] == prev[a];
      j := CleanedFirstSeen(kept[..n], a);
    } else {
      j := n;
      assert cleaned == prev + [cleaned[a]] && kept[n] == Some(cleaned[a]);
      assert Lower(cleaned[a]) !in Keys(prev);
      forall j' | 0 <= j' < n && kept[j'].Some?
        ensures Lower(kept[j'].value) != Lower(cleaned[a])
      {
        KeptKeyIsSeen(kept[..n], j');
      }
    }
  }

  /** Every kept segment's key is among the keys of the result: no kept key is lost. */
  lemma {:induction false} KeptKeyIsSeen(kept: seq<Option<string>>, j: nat)
    requires j < |kept| && kept[j].Some?
    ensures Lower(kept[j].value) in Keys(Cleaned(kept))
    decreases |kept|
  {
    var n := |kept| - 1;
    var prev := Cleaned(kept[..n]);
    if j < n {
      assert kept[..n][j] == kept[j];
      KeptKeyIsSeen(kept[..n], j);
      assert Keys(prev) <= Keys(Cleaned(kept));
    } else {
      var c := kept[n].value;
      if Lower(c) !in Keys(prev) {
        assert c in Cleaned(kept);
      }
    }
  }

  /** Results keep the order of the segments they came from. */
  lemma {:induction false} CleanedOrder(kept: seq<Option<string>>, a: nat, b: nat) returns (i: nat, j: nat)
    requires a < b < |Cleaned(kept)|
    ensures i < j < |kept|
    ensures kept[i] == Some(Cleaned(kept)[a]) && kept[j] == Some(Cleaned(kept)[b])
    decreases |kept|
  {
    var n := |kept| - 1;
    var prev := Cleaned(kept[..n]);
    var cleaned := Cleaned(kept);
    assert cleaned[a] == prev[a];
    if b < |prev| {
      assert cleaned[b] == prev[b];
      i, j := CleanedOrder(kept[..n], a, b);
    } else {
      i := CleanedFirstSeen(kept[..n], a);
      j := n;
      assert cleaned == prev + [cleaned[b]];
    }
  }

  /** The output is at most 161 characters, and the kept segments are joined by ", " whenever that fits. */
  lemma RoleShape(raw: string, author: string)
    ensures |RoleOf(raw, author)| <= MaxRoleLength + 1
    ensures raw != [] && |Join(Cleaned(KeptOf(Segments(raw), author)), ", ")| <= MaxRoleLength ==>
      RoleOf(raw, author) == Join(Cleaned(KeptOf(Segments(raw), author)), ", ")
  {
  }
}
