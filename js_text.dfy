/**
 * The JavaScript string operations the feed cleaner relies on, stated over
 * Dafny strings: the `\s` class, `trim`, `toLowerCase` (ASCII letters),
 * `includes`, `startsWith`, `split` on one character, `join`,
 * first-occurrence `replace`, `String(n)` for an integral Number and
 * `parseInt` without a radix.
 */
module JsText {
  import opened Wrappers

  /** JavaScript's `\s`: the WhiteSpace and LineTerminator code points. */
  predicate IsWhitespace(c: char) {
    || c == '\t' || c == '\n' || c == '\U{000B}' || c == '\U{000C}' || c == '\r' || c == ' '
    || c == '\U{00A0}' || c == '\U{1680}' || ('\U{2000}' <= c <= '\U{200A}')
    || c == '\U{2028}' || c == '\U{2029}' || c == '\U{202F}' || c == '\U{205F}'
    || c == '\U{3000}' || c == '\U{FEFF}'
  }

  /** The characters a regular-expression `.` does not match. */
  predicate IsLineTerminator(c: char) {
    c == '\n' || c == '\r' || c == '\U{2028}' || c == '\U{2029}'
  }

  /** `\d`: the ASCII decimal digits. */
  predicate IsDigit(c: char) { '0' <= c <= '9' }

  predicate IsUpper(c: char) { 'A' <= c <= 'Z' }

  /** `\w`, the class that `\b` separates from everything else. */
  predicate IsWordChar(c: char) { IsDigit(c) || IsUpper(c) || ('a' <= c <= 'z') || c == '_' }

  function LowerChar(c: char): char {
    if IsUpper(c) then (c as int + 32) as char else c
  }

  /** `s.toLowerCase()`, on the ASCII letters. */
  function Lower(s: string): (r: string)
    ensures |r| == |s|
    ensures forall k :: 0 <= k < |s| ==> r[k] == LowerChar(s[k])
  {
    seq(|s|, k requires 0 <= k < |s| => LowerChar(s[k]))
  }

  /** Leading `\s` removed. */
  function TrimStart(s: string): (r: string)
    ensures |r| <= |s| && (|r| == |s| ==> r == s) && (|r| < |s| ==> r == s[|s| - |r|..])
    ensures r == [] || !IsWhitespace(r[0])
    ensures forall k :: 0 <= k < |s| - |r| ==> IsWhitespace(s[k])
    decreases |s|
  {
    if s != [] && IsWhitespace(s[0]) then TrimStart(s[1..]) else s
  }

  /** Trailing `\s` removed. */
  function TrimEnd(s: string): (r: string)
    ensures |r| <= |s| && (|r| == |s| ==> r == s) && (|r| < |s| ==> r == s[..|r|])
    ensures r == [] || !IsWhitespace(r[|r| - 1])
    ensures forall k :: |r| <= k < |s| ==> IsWhitespace(s[k])
    decreases |s|
  {
    if s != [] && IsWhitespace(s[|s| - 1]) then TrimEnd(s[..|s| - 1]) else s
  }

  /** `s.trim()`. */
  function Trim(s: string): (r: string)
    ensures |r| <= |s|
    ensures r == [] || (!IsWhitespace(r[0]) && !IsWhitespace(r[|r| - 1]))
  {
    TrimEnd(TrimStart(s))
  }

  /** A string with no whitespace at either end is its own trim. */
  lemma TrimUnchanged(s: string)
    requires s == [] || (!IsWhitespace(s[0]) && !IsWhitespace(s[|s| - 1]))
    ensures Trim(s) == s
  {
  }

  /** The length of the run of `\s` characters that `s` starts with. */
  function WsRun(s: string): (n: nat)
    ensures n <= |s|
    ensures forall k :: 0 <= k < n ==> IsWhitespace(s[k])
    ensures n < |s| ==> !IsWhitespace(s[n])
    decreases |s|
  {
    if s != [] && IsWhitespace(s[0]) then 1 + WsRun(s[1..]) else 0
  }

  /**
   * `s.replace(/\s{min,}/g, rep)`: every maximal run of at least `min`
   * whitespace characters is replaced by `rep`, shorter runs are kept
   * (`min` 1 is `/\s+/g`).
   */
  function ReplaceWsRuns(s: string, min: nat, rep: string): string
    decreases |s|
  {
    if s == [] then []
    else if IsWhitespace(s[0]) then
      var n := WsRun(s);
      (if n >= min then rep else s[..n]) + ReplaceWsRuns(s[n..], min, rep)
    else [s[0]] + ReplaceWsRuns(s[1..], min, rep)
  }

  /** No whitespace character in `s`. */
  predicate NoWhitespace(s: string) {
    forall k :: 0 <= k < |s| ==> !IsWhitespace(s[k])
  }

  /** Every whitespace character of `s` stands alone: the next one is not whitespace. */
  predicate SingleSpaced(s: string) {
    forall k :: 0 <= k < |s| - 1 && IsWhitespace(s[k]) ==> !IsWhitespace(s[k + 1])
  }

  /** A string without whitespace is left alone by any run replacement. */
  lemma {:induction false} ReplaceWsRunsNone(s: string, min: nat, rep: string)
    requires NoWhitespace(s)
    ensures ReplaceWsRuns(s, min, rep) == s
    decreases |s|
  {
    if s != [] {
      ReplaceWsRunsNone(s[1..], min, rep);
    }
  }

  /** A single-spaced string has no run of two or more whitespace characters to replace. */
  lemma {:induction false} ReplaceWsRunsSingleSpaced(s: string, min: nat, rep: string)
    requires min >= 2 && SingleSpaced(s)
    ensures ReplaceWsRuns(s, min, rep) == s
    decreases |s|
  {
    if s != [] {
      if IsWhitespace(s[0]) {
        assert WsRun(s) == 1;
      }
      ReplaceWsRunsSingleSpaced(s[1..], min, rep);
    }
  }

  /** `s.split(/\s+/)`: the pieces between maximal whitespace runs (a leading or trailing run gives an empty piece). */
  function SplitWs(s: string): (parts: seq<string>)
    ensures |parts| >= 1
    decreases |s|
  {
    if s == [] then [[]]
    else if IsWhitespace(s[0]) then [[]] + SplitWs(s[WsRun(s)..])
    else
      var rest := SplitWs(s[1..]);
      [[s[0]] + rest[0]] + rest[1..]
  }

  /** A word without whitespace glues onto the first piece of what follows it. */
  lemma {:induction false} SplitWsWord(w: string, s: string)
    requires NoWhitespace(w)
    ensures SplitWs(w + s) == [w + SplitWs(s)[0]] + SplitWs(s)[1..]
    decreases |w|
  {
    if w != [] {
      SplitWsWord(w[1..], s);
      assert w + s == [w[0]] + (w[1..] + s);
      SplitWsCons(w[0], w[1..] + s);
      assert [w[0]] + (w[1..] + SplitWs(s)[0]) == w + SplitWs(s)[0];
    } else {
      assert w + s == s && w + SplitWs(s)[0] == SplitWs(s)[0];
      assert SplitWs(s) == [SplitWs(s)[0]] + SplitWs(s)[1..];
    }
  }

  /** A non-whitespace character joins the first piece. */
  lemma SplitWsCons(c: char, t: string)
    requires !IsWhitespace(c)
    ensures SplitWs([c] + t) == [[c] + SplitWs(t)[0]] + SplitWs(t)[1..]
  {
    assert ([c] + t)[1..] == t;
  }

  /** `p` occurs in `s` starting at position `i`. */
  predicate OccursAt(s: string, p: string, i: nat) {
    i + |p| <= |s| && s[i..i + |p|] == p
  }

  /** `s.includes(p)`. */
  predicate Includes(s: string, p: string) {
    exists i :: 0 <= i <= |s| && OccursAt(s, p, i)
  }

  /** `s.startsWith(p)`. */
  predicate StartsWith(s: string, p: string) {
    |p| <= |s| && s[..|p|] == p
  }

  /** The first position at or after `i` where `p` occurs in `s`. */
  function IndexFrom(s: string, p: string, i: nat): (r: Option<nat>)
    ensures r.Some? ==> i <= r.value && OccursAt(s, p, r.value)
    ensures forall j: nat :: i <= j && (r.None? || j < r.value) ==> !OccursAt(s, p, j)
    decreases |s| - i
  {
    if i + |p| > |s| then None
    else if OccursAt(s, p, i) then Some(i)
    else IndexFrom(s, p, i + 1)
  }

  /** `s.replace(p, r)` with a string pattern: only the first occurrence is replaced. */
  function ReplaceFirst(s: string, p: string, r: string): string {
    match IndexFrom(s, p, 0)
    case None => s
    case Some(i) => s[..i] + r + s[i + |p|..]
  }

  /** `s.split(sep)` for a one-character separator. */
  function SplitChar(s: string, sep: char): (parts: seq<string>)
    ensures |parts| >= 1
    ensures forall k :: 0 <= k < |parts| ==> sep !in parts[k]
    decreases |s|
  {
    if s == [] then [[]]
    else
      var rest := SplitChar(s[1..], sep);
      if s[0] == sep then [[]] + rest else [[s[0]] + rest[0]] + rest[1..]
  }

  /** `parts.join(sep)`. */
  function Join(parts: seq<string>, sep: string): string
    decreases |parts|
  {
    if |parts| == 0 then []
    else if |parts| == 1 then parts[0]
    else parts[0] + sep + Join(parts[1..], sep)
  }

  /** Joining the pieces of a split with the separator gives back the string. */
  lemma {:induction false} JoinSplit(s: string, sep: char)
    ensures Join(SplitChar(s, sep), [sep]) == s
    decreases |s|
  {
    if s != [] {
      var rest := SplitChar(s[1..], sep);
      JoinSplit(s[1..], sep);
      if s[0] == sep {
        assert SplitChar(s, sep) == [[]] + rest;
        assert ([[]] + rest)[1..] == rest;
      } else if |rest| > 1 {
        var parts := [[s[0]] + rest[0]] + rest[1..];
        assert parts[1..] == rest[1..];
        assert Join(rest, [sep]) == rest[0] + [sep] + Join(rest[1..], [sep]);
      }
    }
  }

  /** A separator-free prefix extends the first piece of the split. */
  lemma {:induction false} SplitCharWord(w: string, rest: string, sep: char)
    requires sep !in w
    ensures SplitChar(w + rest, sep) == [w + SplitChar(rest, sep)[0]] + SplitChar(rest, sep)[1..]
    decreases |w|
  {
    var r := SplitChar(rest, sep);
    if w == [] {
      assert w + rest == rest;
      assert w + r[0] == r[0];
      assert [r[0]] + r[1..] == r;
    } else {
      assert (w + rest)[1..] == w[1..] + rest;
      SplitCharWord(w[1..], rest, sep);
      assert [w[0]] + (w[1..] + SplitChar(rest, sep)[0]) == w + SplitChar(rest, sep)[0];
    }
  }

  /** Splitting a join of separator-free pieces gives the pieces back. */
  lemma {:induction false} SplitJoin(parts: seq<string>, sep: char)
    requires |parts| >= 1 && forall k :: 0 <= k < |parts| ==> sep !in parts[k]
    ensures SplitChar(Join(parts, [sep]), sep) == parts
    decreases |parts|
  {
    if |parts| == 1 {
      SplitCharWord(parts[0], [], sep);
      assert parts[0] + [] == parts[0];
    } else {
      var j := Join(parts[1..], [sep]);
      SplitJoin(parts[1..], sep);
      assert parts[0] + [sep] + j == parts[0] + ([sep] + j);
      SplitCharWord(parts[0], [sep] + j, sep);
      assert ([sep] + j)[1..] == j;
      assert parts[0] + [] == parts[0];
      assert [parts[0]] + parts[1..] == parts;
    }
  }

  /** A join splits at the boundary of any of its pieces. */
  lemma {:induction false} JoinAt(parts: seq<string>, sep: string, n: nat)
    requires 0 < n < |parts|
    ensures Join(parts, sep) == Join(parts[..n], sep) + sep + Join(parts[n..], sep)
    decreases n
  {
    if n > 1 {
      JoinAt(parts[1..], sep, n - 1);
      assert parts[1..][..n - 1] == parts[..n][1..];
      assert parts[1..][n - 1..] == parts[n..];
    }
  }

  function DigitChar(d: nat): char
    requires d < 10
  {
    ('0' as int + d) as char
  }

  /** The decimal digits of `n`, most significant first. */
  function NatToString(n: nat): (s: string)
    ensures |s| >= 1 && forall k :: 0 <= k < |s| ==> IsDigit(s[k])
    decreases n
  {
    if n < 10 then [DigitChar(n)] else NatToString(n / 10) + [DigitChar(n % 10)]
  }

  /** `String(n)` (or `${n}`) for an integral Number. */
  function NumberToString(n: int): string {
    if n < 0 then "-" + NatToString(-n) else NatToString(n)
  }

  /** The value of digit `c` in base `radix` (10 or 16). */
  function DigitValue(c: char, radix: nat): Option<nat> {
    if IsDigit(c) then Some(c as int - '0' as int)
    else if radix == 16 && 'a' <= c <= 'f' then Some(c as int - 'a' as int + 10)
    else if radix == 16 && 'A' <= c <= 'F' then Some(c as int - 'A' as int + 10)
    else None
  }

  /** The length of the longest prefix of `s` made of base-`radix` digits. */
  function DigitRun(s: string, radix: nat): (n: nat)
    ensures n <= |s|
    ensures forall k :: 0 <= k < n ==> DigitValue(s[k], radix).Some?
    ensures n < |s| ==> DigitValue(s[n], radix).None?
    decreases |s|
  {
    if s != [] && DigitValue(s[0], radix).Some? then 1 + DigitRun(s[1..], radix) else 0
  }

  /** The number a string of digits denotes, most significant digit first. */
  function DigitsValue(s: string, radix: nat): nat
    requires forall k :: 0 <= k < |s| ==> DigitValue(s[k], radix).Some?
    decreases |s|
  {
    if s == [] then 0
    else DigitsValue(s[..|s| - 1], radix) * radix + DigitValue(s[|s| - 1], radix).value
  }

  /**
   * The digits part of `parseInt`: a `0x`/`0X` prefix selects base 16,
   * then the longest run of digits is read; `None` when there is no digit.
   */
  function ParseUnsigned(u: string): Option<int> {
    var hex := |u| >= 2 && u[0] == '0' && (u[1] == 'x' || u[1] == 'X');
    var radix := if hex then 16 else 10;
    var body := if hex then u[2..] else u;
    var n := DigitRun(body, radix);
    if n == 0 then None else Some(DigitsValue(body[..n], radix) as int)
  }

  /**
   * `parseInt(s)` with no radix argument: leading `\s` skipped, one optional
   * sign, then the digits part; `None` stands for NaN.
   */
  function ParseInt(s: string): Option<int> {
    var t := TrimStart(s);
    if t != [] && t[0] == '-' then
      match ParseUnsigned(t[1..])
      case None => None
      case Some(m) => Some(-m)
    else if t != [] && t[0] == '+' then ParseUnsigned(t[1..])
    else ParseUnsigned(t)
  }

  lemma {:induction false} NatToStringValue(n: nat)
    ensures DigitsValue(NatToString(n), 10) == n
    decreases n
  {
    if n >= 10 {
      NatToStringValue(n / 10);
      var s := NatToString(n);
      assert s[..|s| - 1] == NatToString(n / 10);
    }
  }

  lemma {:induction false} DigitRunOfDigits(s: string)
    requires forall k :: 0 <= k < |s| ==> IsDigit(s[k])
    ensures DigitRun(s, 10) == |s|
    decreases |s|
  {
    if s != [] {
      DigitRunOfDigits(s[1..]);
    }
  }

  lemma ParseUnsignedDigits(s: string)
    requires |s| >= 1 && forall k :: 0 <= k < |s| ==> IsDigit(s[k])
    ensures ParseUnsigned(s) == Some(DigitsValue(s, 10) as int)
  {
    DigitRunOfDigits(s);
    assert s[..|s|] == s;
  }

  /** `parseInt` of a digit string with no sign is the number the digits denote. */
  lemma ParseIntDigits(s: string)
    requires |s| >= 1 && forall k :: 0 <= k < |s| ==> IsDigit(s[k])
    ensures ParseInt(s) == Some(DigitsValue(s, 10) as int)
  {
    assert IsDigit(s[0]) && !IsWhitespace(s[0]);
    assert TrimStart(s) == s;
    ParseUnsignedDigits(s);
  }

  lemma ParseIntMinus(u: string, m: int)
    requires ParseUnsigned(u) == Some(m)
    ensures ParseInt("-" + u) == Some(-m)
  {
    var t := "-" + u;
    assert !IsWhitespace(t[0]);
    assert TrimStart(t) == t;
    assert t[1..] == u;
  }

  lemma ParseIntNegative(n: int)
    requires n < 0
    ensures ParseInt(NumberToString(n)) == Some(n)
  {
    var d := NatToString(-n);
    NatToStringValue(-n);
    ParseUnsignedDigits(d);
    ParseIntMinus(d, -n);
  }

  lemma ParseIntNonNegative(n: int)
    requires n >= 0
    ensures ParseInt(NumberToString(n)) == Some(n)
  {
    NatToStringValue(n);
    ParseIntDigits(NatToString(n));
  }

  /** `parseInt` reads back what `String` writes for an integer; this `String` never uses the exponent notation JavaScript switches to from 10^21 on. */
  lemma ParseIntNumberToString(n: int)
    ensures ParseInt(NumberToString(n)) == Some(n)
  {
    if n < 0 {
      ParseIntNegative(n);
    } else {
      ParseIntNonNegative(n);
    }
  }
}
