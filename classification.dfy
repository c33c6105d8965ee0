/**
 * Classification (`analyzePost`): the request budget, and decoding the
 * oracle's reply into a score and a category. Every failure path yields
 * the same fail-open fallback.
 */
module Classification {
  import opened Wrappers
  import opened JsText

  /** The JavaScript values a decoded JSON field can hold. */
  datatype JsValue =
    | Undefined
    | Null
    | Bool(b: bool)
    | Num(n: int)
    | Str(s: string)
    | Composite(text: string) // an object or array; `text` is what `String(...)` gives for it

  /** JavaScript truthiness. */
  predicate Truthy(v: JsValue) {
    match v
    case Undefined => false
    case Null => false
    case Bool(b) => b
    case Num(n) => n != 0
    case Str(s) => s != []
    case Composite(_) => true
  }

  /** `String(v)`, the conversion `parseInt` applies to its argument. */
  function ToStr(v: JsValue): string {
    match v
    case Undefined => "undefined"
    case Null => "null"
    case Bool(b) => if b then "true" else "false"
    case Num(n) => NumberToString(n)
    case Str(s) => s
    case Composite(text) => text
  }

  type JsonObject = map<string, JsValue>

  /** `o.key`: `undefined` when the key is absent. */
  function Field(o: JsonObject, key: string): JsValue {
    if key in o then o[key] else Undefined
  }

  /** The result of an analysis. */
  datatype Analysis = Analysis(informativeness: int, category: JsValue)

  /** The fail-open answer every failure path returns. */
  const Fallback := Analysis(8, Str("normal"))

  /** `parseInt(v) || 8`: NaN and 0 are falsy and become 8. */
  function ScoreOf(v: JsValue): int {
    match ParseInt(ToStr(v))
    case Some(n) => if n != 0 then n else 8
    case None => 8
  }

  /** `v || 'normal'`. */
  function CategoryOf(v: JsValue): (c: JsValue)
    ensures Truthy(c)
    ensures Truthy(v) ==> c == v
  {
    if Truthy(v) then v else Str("normal")
  }

  /** A numeric score keeps its value (no clamping to 0..10), except that 0 becomes 8. */
  lemma ScoreOfNumber(n: int)
    ensures ScoreOf(Num(n)) == if n == 0 then 8 else n
  {
    ParseIntNumberToString(n);
  }

  /** The same holds for a score the oracle sent as a decimal string. */
  lemma ScoreOfNumeral(n: int)
    ensures ScoreOf(Str(NumberToString(n))) == if n == 0 then 8 else n
  {
    ParseIntNumberToString(n);
  }

  /** A decoded score is never 0: an oracle's "auto-zero" verdict decodes to 8. */
  lemma ScoreNeverZero(v: JsValue)
    ensures ScoreOf(v) != 0
  {
  }

  /** A text that does not start with a sign, a digit or whitespace is NaN to `parseInt`. */
  lemma NotANumeral(s: string)
    requires s != [] && !IsWhitespace(s[0]) && !IsDigit(s[0]) && s[0] != '-' && s[0] != '+'
    ensures ParseInt(s) == None
  {
    assert TrimStart(s) == s;
  }

  /** A missing or non-numeric score decodes to 8. */
  lemma ScoreOfMissing()
    ensures ScoreOf(Undefined) == 8 && ScoreOf(Null) == 8 && ScoreOf(Bool(true)) == 8 && ScoreOf(Str("high")) == 8
  {
    NotANumeral("undefined");
    NotANumeral("null");
    NotANumeral("true");
    NotANumeral("high");
  }

  // --- The first `{[^}]+}` in the reply text ---

  /** `text[i..j+1]` is a match of `{[^}]+}`. */
  predicate ObjectMatch(text: string, i: nat, j: nat) {
    i + 1 < j < |text| && text[i] == '{' && text[j] == '}' && forall k :: i < k < j ==> text[k] != '}'
  }

  /** The match of `{[^}]+}` that starts at `i`, as its end position, if there is one. */
  function ObjectEnd(text: string, i: nat): (r: Option<nat>)
    ensures r.Some? ==> ObjectMatch(text, i, r.value)
    ensures r.None? ==> forall j :: !ObjectMatch(text, i, j)
  {
    if i < |text| && text[i] == '{' then
      match IndexFrom(text, "}", i + 1)
      case Some(j) =>
        assert text[j] == "}"[0] by { assert OccursAt(text, "}", j); }
        assert forall k: nat :: i < k < j ==> text[k] != '}' by {
          forall k: nat | i < k < j ensures text[k] != '}' {
            assert !OccursAt(text, "}", k);
            assert text[k..k + 1] == [text[k]];
          }
        }
        if j > i + 1 then Some(j) else None
      case None =>
        assert forall k: nat :: i < k < |text| ==> text[k] != '}' by {
          forall k: nat | i < k < |text| ensures text[k] != '}' {
            assert !OccursAt(text, "}", k);
            assert text[k..k + 1] == [text[k]];
          }
        }
        None
    else None
  }

  /** The leftmost match at or after `i`, as its start and end. */
  function ObjectFrom(text: string, i: nat): (r: Option<(nat, nat)>)
    ensures r.Some? ==> i <= r.value.0 && ObjectMatch(text, r.value.0, r.value.1)
    ensures forall a, j :: i <= a && (r.None? || a < r.value.0) ==> !ObjectMatch(text, a, j)
    decreases |text| - i
  {
    if i >= |text| then None
    else match ObjectEnd(text, i)
      case Some(j) => Some((i, j))
      case None => ObjectFrom(text, i + 1)
  }

  /** `text.match(/\{[^}]+\}/)`: the leftmost match, which ends at the first `}` after its `{`. */
  function FirstObject(text: string): Option<string> {
    match ObjectFrom(text, 0)
    case Some((i, j)) => Some(text[i..j + 1])
    case None => None
  }

  /** A match is determined by where it starts: it ends at the first `}` after its `{`. */
  lemma ObjectMatchUnique(text: string, i: nat, j: nat, j': nat)
    requires ObjectMatch(text, i, j) && ObjectMatch(text, i, j')
    ensures j == j'
  {
  }

  /** What `FirstObject` finds: a braced text with no `}` inside, that is the leftmost one in the reply. */
  lemma FirstObjectSpec(text: string)
    ensures FirstObject(text).None? <==> forall i, j :: !ObjectMatch(text, i, j)
    ensures FirstObject(text).Some? ==>
      (exists i: nat, j: nat :: ObjectMatch(text, i, j) && FirstObject(text).value == text[i..j + 1]
        && forall a: nat, b: nat :: a < i ==> !ObjectMatch(text, a, b))
  {
    match ObjectFrom(text, 0)
    case Some((i, j)) =>
      assert ObjectMatch(text, i, j) && FirstObject(text).value == text[i..j + 1];
    case None =>
  }

  // --- Decoding the reply ---

  /** The part of the response body that decoding reads. */
  datatype Envelope = Envelope(
    error: JsValue,                 // data.error
    candidateText: Option<string>)  // data.candidates[0].content.parts[0].text, when all of it is present and a string

  /** What the request came back with. */
  datatype Reply =
    | NetworkFailure                            // fetch rejected
    | Response(ok: bool, body: Option<Envelope>) // body None: the body is not JSON

  /**
   * The analysis a reply decodes to; `parse` stands for `JSON.parse` of
   * the braced text (`None` when it throws).
   */
  function DecodeReply(reply: Reply, parse: string -> Option<JsonObject>): Analysis {
    if reply.NetworkFailure? || !reply.ok || reply.body.None? then Fallback
    else
      var data := reply.body.value;
      if Truthy(data.error) || data.candidateText.None? then Fallback
      else match FirstObject(data.candidateText.value)
        case None => Fallback
        case Some(json) =>
          match parse(json)
          case None => Fallback
          case Some(o) =>
            if Truthy(Field(o, "error")) then Fallback
            else Analysis(ScoreOf(Field(o, "informativeness")), CategoryOf(Field(o, "category")))
  }

  /**
   * Decoding fails open: the result is the fallback unless the reply is
   * an ok response without error carrying a braced object that parses and
   * has no error of its own, and then it is that object's score and category.
   */
  lemma DecodeReplySpec(reply: Reply, parse: string -> Option<JsonObject>)
    ensures DecodeReply(reply, parse) != Fallback ==>
      reply.Response? && reply.ok && reply.body.Some? && !Truthy(reply.body.value.error) && reply.body.value.candidateText.Some?
      && FirstObject(reply.body.value.candidateText.value).Some?
      && parse(FirstObject(reply.body.value.candidateText.value).value).Some?
      && !Truthy(Field(parse(FirstObject(reply.body.value.candidateText.value).value).value, "error"))
    ensures (reply.Response? && reply.ok && reply.body.Some? && !Truthy(reply.body.value.error) && reply.body.value.candidateText.Some?
      && FirstObject(reply.body.value.candidateText.value).Some?
      && parse(FirstObject(reply.body.value.candidateText.value).value).Some?
      && !Truthy(Field(parse(FirstObject(reply.body.value.candidateText.value).value).value, "error"))) ==>
      var o := parse(FirstObject(reply.body.value.candidateText.value).value).value;
      DecodeReply(reply, parse) == Analysis(ScoreOf(Field(o, "informativeness")), CategoryOf(Field(o, "category")))
    ensures DecodeReply(reply, parse).informativeness != 0
    ensures Truthy(DecodeReply(reply, parse).category)
  {
  }

  /** A successful decode of an integral score and a string category: no clamping, 0 becomes 8, any category passes. */
  lemma DecodeScore(text: string, o: JsonObject, n: int, category: string, parse: string -> Option<JsonObject>)
    requires FirstObject(text).Some? && parse(FirstObject(text).value) == Some(o)
    requires Field(o, "error") == Undefined && Field(o, "informativeness") == Num(n) && Field(o, "category") == Str(category) && category != []
    ensures DecodeReply(Response(true, Some(Envelope(Undefined, Some(text)))), parse) == Analysis(if n == 0 then 8 else n, Str(category))
  {
    ScoreOfNumber(n);
  }

  // --- The request budget ---

  /** At most this many requests are sent per window. */
  const RequestLimit: nat := 100
  /** The window length, in milliseconds. */
  const RequestWindow: int := 60000

  /** `apiRequestCount` and `lastApiReset`. */
  datatype Budget = Budget(count: nat, lastReset: int)

  /** An admit-or-deny decision and the budget after it. */
  datatype Admission = Admission(admitted: bool, budget: Budget)

  /** The budget check at time `now`: restart the window once it has strictly elapsed, then admit while under the limit. */
  function Admit(b: Budget, now: int): (a: Admission)
    ensures b.count <= RequestLimit ==> a.budget.count <= RequestLimit
    ensures now - b.lastReset > RequestWindow ==> a == Admission(true, Budget(1, now))
    ensures now - b.lastReset <= RequestWindow ==>
      (a.budget.lastReset == b.lastReset
       && (a.admitted <==> b.count < RequestLimit)
       && a.budget.count == (if a.admitted then b.count + 1 else b.count))
  {
    var current := if now - b.lastReset > RequestWindow then Budget(0, now) else b;
    if current.count >= RequestLimit then Admission(false, current)
    else Admission(true, Budget(current.count + 1, current.lastReset))
  }

  /** How many of the requests at `times` are admitted, starting from `b`. */
  function AdmittedCount(b: Budget, times: seq<int>): nat
    decreases |times|
  {
    if times == [] then 0
    else
      var a := Admit(b, times[0]);
      (if a.admitted then 1 else 0) + AdmittedCount(a.budget, times[1..])
  }

  function Min(x: int, y: int): int { if x <= y then x else y }

  /**
   * Within one window (no request later than `RequestWindow` after the
   * reset) exactly as many requests are admitted as the budget has room
   * for: never more than `RequestLimit` in total.
   */
  lemma {:induction false} AdmittedWithinWindow(b: Budget, times: seq<int>)
    requires b.count <= RequestLimit
    requires forall k :: 0 <= k < |times| ==> times[k] - b.lastReset <= RequestWindow
    ensures AdmittedCount(b, times) == Min(|times|, RequestLimit - b.count)
    decreases |times|
  {
    if times != [] {
      var a := Admit(b, times[0]);
      AdmittedWithinWindow(a.budget, times[1..]);
    }
  }

  /** A request arriving exactly one window after the reset does not restart the window. */
  lemma WindowBoundary(count: nat, lastReset: int)
    requires count <= RequestLimit
    ensures Admit(Budget(count, lastReset), lastReset + RequestWindow).admitted <==> count < RequestLimit
    ensures Admit(Budget(count, lastReset), lastReset + RequestWindow + 1) == Admission(true, Budget(1, lastReset + RequestWindow + 1))
  {
  }
}
