/**
 * The cleaner itself: the processing loop over discovered posts, the
 * per-post policy (mute, hide below 7, otherwise badge), the rate-limited
 * analysis request and the element updates of hiding, showing and badging.
 *
 * The page is a `Page` object whose element records the cleaner rewrites;
 * the cleaner's own state (`processedPosts` and the request counter) lives
 * in a `FeedCleaner` object. The clock reading and the oracle's reply for
 * the k-th post of a scan come from `env(k)`, and JSON parsing is the
 * function parameter `parse`.
 */
module Cleaner {
  import opened Wrappers
  import opened JsText
  import opened Dom
  import opened Identity
  import opened Discovery
  import opened Classification
  import opened Normalize
  import opened Visibility
  import opened Extraction

  /** The page: its elements in document order. */
  class Page {
    var nodes: Tree

    constructor (nodes: Tree)
      ensures this.nodes == nodes
    {
      this.nodes := nodes;
    }
  }

  /** The clock reading and the oracle's reply seen while analysing one post. */
  datatype Exchange = Exchange(now: int, reply: Reply)

  /** What `processPost` did to a post. */
  datatype Outcome = Skipped | Hidden(analysis: Analysis) | Badged(analysis: Analysis)

  /** Posts with less content than this are left alone. */
  const MinContentLength: nat := 10

  /** Posts scoring below this are hidden. */
  const HideBelow: int := 7

  /** The analysis a muted post is hidden with. */
  const MutedAnalysis := Analysis(0, Str("muted"))

  /** The placeholders the prompt template carries. */
  const AuthorPlaceholder := "{{author}}"
  const ContentPlaceholder := "{{content}}"

  /** The prompt: the first `{{author}}`, then the first `{{content}}`, substituted. */
  function Prompt(template: string, author: string, content: string): string {
    ReplaceFirst(ReplaceFirst(template, AuthorPlaceholder, author), ContentPlaceholder, content)
  }

  /** What one call of `analyzePost` yields: its analysis, the new counter and the prompt it sent, if any. */
  datatype Analyzed = Analyzed(analysis: Analysis, budget: Budget, request: Option<string>)

  /** `analyzePost` on values: key check, then the rate limiter, then the request and its decoding. */
  function Analyze(apiKey: string, template: string, b: Budget, content: string, author: string,
                   now: int, reply: Reply, parse: string -> Option<JsonObject>): Analyzed
  {
    if apiKey == [] then Analyzed(Fallback, b, None)
    else
      var adm := Admit(b, now);
      if !adm.admitted then Analyzed(Fallback, adm.budget, None)
      else Analyzed(DecodeReply(reply, parse), adm.budget, Some(Prompt(template, author, content)))
  }

  /**
   * A request is sent exactly when there is a key and the limiter admits it;
   * without a key the counter is untouched; the counter stays within the
   * limit; whatever is not a request ends in the fallback; no analysis
   * scores 0 and every category is truthy.
   */
  lemma AnalyzeSpec(apiKey: string, template: string, b: Budget, content: string, author: string,
                    now: int, reply: Reply, parse: string -> Option<JsonObject>)
    requires b.count <= RequestLimit
    ensures var r := Analyze(apiKey, template, b, content, author, now, reply, parse);
      && (r.request.Some? <==> apiKey != [] && Admit(b, now).admitted)
      && (apiKey == [] ==> r.budget == b)
      && r.budget.count <= RequestLimit
      && (r.request.None? ==> r.analysis == Fallback)
      && (r.request.Some? ==> r.analysis == DecodeReply(reply, parse) && r.budget.count == Admit(b, now).budget.count)
      && r.analysis.informativeness != 0
      && Truthy(r.analysis.category)
  {
    DecodeReplySpec(reply, parse);
  }

  /** `processPost`'s decision, given the analysis it would obtain. */
  function Decide(data: PostData, muteWords: seq<string>, analysis: Analysis): Outcome {
    if data.content == [] || |data.content| < MinContentLength then Skipped
    else if IsMutedByWords(muteWords, data.content) then Hidden(MutedAnalysis)
    else if analysis.informativeness < HideBelow || analysis.informativeness == 0 then Hidden(analysis)
    else Badged(analysis)
  }

  /**
   * The decision in full: short posts are skipped; a muted post is hidden as
   * muted whatever the analysis; otherwise the post is hidden exactly when its
   * score is below 7 and badged otherwise (the `== 0` test adds nothing).
   */
  lemma DecideSpec(data: PostData, muteWords: seq<string>, analysis: Analysis)
    ensures Decide(data, muteWords, analysis).Skipped? <==> |data.content| < MinContentLength
    ensures |data.content| >= MinContentLength && IsMutedByWords(muteWords, data.content) ==>
      Decide(data, muteWords, analysis) == Hidden(MutedAnalysis)
    ensures |data.content| >= MinContentLength && !IsMutedByWords(muteWords, data.content) ==>
      Decide(data, muteWords, analysis) == (if analysis.informativeness < HideBelow then Hidden(analysis) else Badged(analysis))
  {
  }

  /** The indicator `hidePost` builds for a post. */
  function IndicatorFor(analysis: Analysis, data: PostData): Indicator {
    var shown := LabelOf(analysis);
    Indicator(if data.authorName != [] then data.authorName else data.author,
              data.authorRole, data.authorAvatar, Preview(data.content), shown.explanation, shown.scoreText)
  }

  /** The page after `processPost` carried out `outcome` on element `i`. */
  function Apply(t: Tree, i: nat, outcome: Outcome, data: PostData, filterMode: string): (r: Tree)
    requires WellFormed(t) && i < |t|
    ensures |r| == |t| && forall e :: 0 <= e < |t| && e != i ==> r[e] == t[e]
  {
    match outcome
    case Skipped => t
    case Hidden(a) => t[i := HideNode(t[i], filterMode, IndicatorFor(a, data))]
    case Badged(a) => t[i := AddBadge(t, i, a.informativeness)]
  }

  /** Processing a post keeps the page's shape, identities and every attribute except the hidden flag. */
  lemma ApplyKeeps(t: Tree, i: nat, outcome: Outcome, data: PostData, filterMode: string)
    requires WellFormed(t) && i < |t|
    ensures var t' := Apply(t, i, outcome, data, filterMode);
      && WellFormed(t') && SameIdentityData(t, t')
      && forall k, a :: 0 <= k < |t| && a != HiddenAttr ==> Attr(t'[k], a) == Attr(t[k], a)
  {
  }

  /** Identities not yet in `before`, in order, each once: the posts a scan claims. */
  function Claims(ids: seq<string>, before: set<string>): seq<string>
    decreases |ids|
  {
    if ids == [] then []
    else
      var c := Claims(ids[..|ids| - 1], before);
      var id := ids[|ids| - 1];
      if id in before || id in c then c else c + [id]
  }

  /**
   * A scan claims each identity at most once, never one claimed before, only
   * identities it saw, and every identity it saw ends up claimed or was
   * already there.
   */
  lemma {:induction false} ClaimsSpec(ids: seq<string>, before: set<string>)
    ensures var c := Claims(ids, before);
      && (forall a, b :: 0 <= a < b < |c| ==> c[a] != c[b])
      && (forall x :: x in c ==> x !in before && x in ids)
      && (forall x :: x in ids ==> x in before || x in c)
    decreases |ids|
  {
    if ids != [] {
      var init := ids[..|ids| - 1];
      ClaimsSpec(init, before);
      assert ids == init + [ids[|ids| - 1]];
    }
  }

  /** A scan claims nothing when every identity it sees is already recorded. */
  lemma {:induction false} ClaimsNothingNew(ids: seq<string>, before: set<string>)
    requires forall x :: x in ids ==> x in before
    ensures Claims(ids, before) == []
    decreases |ids|
  {
    if ids != [] {
      var init := ids[..|ids| - 1];
      assert forall x :: x in init ==> x in ids;
      ClaimsNothingNew(init, before);
      assert ids[|ids| - 1] in ids;
    }
  }

  /** One more identity: it is claimed exactly when it was not recorded before the scan. */
  lemma ClaimStep(ids: seq<string>, k: nat, before: set<string>)
    requires k < |ids| && forall a, b :: 0 <= a < b < |ids| ==> ids[a] != ids[b]
    ensures var c := Claims(ids[..k], before);
      && (ids[k] in before + (set x | x in c) <==> ids[k] in before)
      && Claims(ids[..k + 1], before) == if ids[k] in before then c else c + [ids[k]]
  {
    var c := Claims(ids[..k], before);
    ClaimsSpec(ids[..k], before);
    assert ids[..k + 1][..k] == ids[..k];
  }

  /** No double processing: scanning the same identities again claims none of them. */
  lemma ClaimsOnce(ids: seq<string>, before: set<string>)
    ensures Claims(ids, before + (set x | x in Claims(ids, before))) == []
  {
    ClaimsSpec(ids, before);
    ClaimsNothingNew(ids, before + (set x | x in Claims(ids, before)));
  }

  /** With distinct identities, exactly those not recorded before are claimed. */
  lemma ClaimsDistinct(ids: seq<string>, before: set<string>)
    requires forall a, b :: 0 <= a < b < |ids| ==> ids[a] != ids[b]
    ensures forall x :: x in Claims(ids, before) <==> x in ids && x !in before
  {
    ClaimsSpec(ids, before);
  }

  /**
   * An oracle score of 0 decodes to 8 and so earns a badge, even for a
   * category such as 'promotional' that the labels treat as flagged.
   */
  lemma ZeroScoreIsBadged(data: PostData, muteWords: seq<string>, text: string, o: JsonObject,
                          category: string, parse: string -> Option<JsonObject>)
    requires FirstObject(text).Some? && parse(FirstObject(text).value) == Some(o)
    requires Field(o, "error") == Undefined && Field(o, "informativeness") == Num(0) && Field(o, "category") == Str(category) && category != []
    requires |data.content| >= MinContentLength && !IsMutedByWords(muteWords, data.content)
    ensures Decide(data, muteWords, DecodeReply(Response(true, Some(Envelope(Undefined, Some(text)))), parse)) == Badged(Analysis(8, Str(category)))
  {
    DecodeScore(text, o, 0, category, parse);
  }

  /** `post.setAttribute('data-linkedin-cleaner-processed', '1')` on element `i`. */
  function Mark(t: Tree, i: nat): Tree
    requires i < |t|
  {
    t[i := t[i].(attrs := t[i].attrs[ProcessedAttr := "1"])]
  }

  /**
   * What one step of the processing loop may do to the page: keep its shape
   * and identities, set the processed flag on post `i`, and leave every other
   * post's flag alone.
   */
  predicate StepKeeps(t: Tree, t': Tree, i: nat) {
    && WellFormed(t') && SameIdentityData(t, t') && i < |t'|
    && Attr(t'[i], ProcessedAttr) == Some("1")
    && forall k :: 0 <= k < |t| && k != i ==> Attr(t'[k], ProcessedAttr) == Attr(t[k], ProcessedAttr)
  }

  /** Processing and then marking a post is such a step, and changes no other element. */
  lemma ProcessStepKeeps(t: Tree, i: nat, outcome: Outcome, data: PostData, filterMode: string)
    requires WellFormed(t) && i < |t|
    ensures var t' := Mark(Apply(t, i, outcome, data, filterMode), i);
      && StepKeeps(t, t', i) && |t'| == |t|
      && forall e :: 0 <= e < |t| && e != i ==> t'[e] == t[e]
  {
    ApplyKeeps(t, i, outcome, data, filterMode);
  }

  /** The posts a scan discovers lie in the page and have pairwise distinct identities. */
  lemma ScannedIds(t: Tree)
    requires WellFormed(t)
    ensures InPage(t, LinkedInPosts(t))
    ensures var ids := IdsOf(t, LinkedInPosts(t)); forall a, b :: 0 <= a < b < |ids| ==> ids[a] != ids[b]
    ensures var posts := LinkedInPosts(t); forall a, b :: 0 <= a < |posts| && 0 <= b < |posts| && a != b ==> posts[a] != posts[b]
  {
    LinkedInPostsSpec(t);
    var posts := LinkedInPosts(t);
    forall a, b | 0 <= a < |posts| && 0 <= b < |posts| && a != b
      ensures posts[a] != posts[b]
    {
      if a < b {
        assert PostId(t, posts[a]) != PostId(t, posts[b]);
      } else {
        assert PostId(t, posts[b]) != PostId(t, posts[a]);
      }
    }
  }

  /** The cleaner's settings, as loaded from storage. */
  datatype Settings = Settings(apiKey: string, systemPrompt: string, filterMode: string, muteWords: seq<string>)

  /** What one turn of the loop leaves behind: the page and the request counter. */
  datatype Step = Step(page: Tree, budget: Budget)

  /**
   * `await this.processPost(post)` followed by marking the post, on values:
   * extract the post's data, decide (asking the oracle only for long, unmuted
   * content), carry the decision out and set the processed flag. Only post
   * `i` changes, it ends marked, identities are kept and the counter stays
   * within the limit.
   */
  function ProcessStep(cfg: Settings, t: Tree, i: nat, b: Budget, ex: Exchange, parse: string -> Option<JsonObject>): (r: Step)
    requires WellFormed(t) && i < |t|
    ensures StepKeeps(t, r.page, i) && |r.page| == |t|
    ensures forall e :: 0 <= e < |t| && e != i ==> r.page[e] == t[e]
    ensures b.count <= RequestLimit ==> r.budget.count <= RequestLimit
  {
    var data := ExtractPostContent(t[i].raw);
    var a := Analyze(cfg.apiKey, cfg.systemPrompt, b, data.content, data.author, ex.now, ex.reply, parse);
    var asked := |data.content| >= MinContentLength && !IsMutedByWords(cfg.muteWords, data.content);
    var outcome := Decide(data, cfg.muteWords, a.analysis);
    ProcessStepKeeps(t, i, outcome, data, cfg.filterMode);
    assert b.count <= RequestLimit ==> a.budget.count <= RequestLimit by {
      if b.count <= RequestLimit {
        AnalyzeSpec(cfg.apiKey, cfg.systemPrompt, b, data.content, data.author, ex.now, ex.reply, parse);
      }
    }
    Step(Mark(Apply(t, i, outcome, data, cfg.filterMode), i), if asked then a.budget else b)
  }

  /** A turn of the loop: page, post, counter and exchange in, the step out. */
  type Turn = (Tree, nat, Budget, Exchange) -> Step

  /** A turn changes no element but the post it is given, and keeps the page's length. */
  ghost predicate Frames(turn: Turn) {
    forall t: Tree, i: nat, b: Budget, ex: Exchange ::
      |turn(t, i, b, ex).page| == |t| && forall e :: 0 <= e < |t| && e != i ==> turn(t, i, b, ex).page[e] == t[e]
  }

  /** On a well-formed page, a turn keeps identities, marks its post and keeps the counter within the limit. */
  ghost predicate Sound(turn: Turn) {
    forall t: Tree, i: nat, b: Budget, ex: Exchange :: WellFormed(t) && i < |t| ==>
      StepKeeps(t, turn(t, i, b, ex).page, i) && (b.count <= RequestLimit ==> turn(t, i, b, ex).budget.count <= RequestLimit)
  }

  /**
   * The cleaner's own turn: `ProcessStep` with the settings and the reply
   * parser fixed. Off a well-formed page, or past its end, where the loop
   * never calls it, it does nothing.
   */
  function TurnOf(cfg: Settings, parse: string -> Option<JsonObject>): (r: Turn)
    ensures Frames(r) && Sound(r)
    ensures forall t: Tree, i: nat, b: Budget, ex: Exchange :: WellFormed(t) && i < |t| ==>
      r(t, i, b, ex) == ProcessStep(cfg, t, i, b, ex, parse)
  {
    (t: Tree, i: nat, b: Budget, ex: Exchange) =>
      if WellFormed(t) && i < |t| then ProcessStep(cfg, t, i, b, ex, parse) else Step(t, b)
  }

  /** Where the loop of `processPosts()` stands: the page, the request counter and the recorded identities. */
  datatype ScanState = ScanState(page: Tree, budget: Budget, processed: set<string>)

  /**
   * The first `k` turns of the loop of `processPosts()` over `posts`, whose
   * identities are `ids`, starting from page `t`, counter `b` and recorded
   * identities `before`: a post whose identity is recorded is skipped; any
   * other has its identity recorded, and is then handed to `turn` with the
   * `k`-th exchange.
   */
  function Scan(turn: Turn, t: Tree, posts: seq<nat>, ids: seq<string>, before: set<string>, b: Budget,
                env: nat -> Exchange, k: nat): (s: ScanState)
    requires |ids| == |posts| && k <= |posts|
    ensures before <= s.processed
    decreases k
  {
    if k == 0 then ScanState(t, b, before)
    else
      var s := Scan(turn, t, posts, ids, before, b, env, k - 1);
      if ids[k - 1] in s.processed then s
      else
        var r := turn(s.page, posts[k - 1], s.budget, env(k - 1));
        ScanState(r.page, r.budget, s.processed + {ids[k - 1]})
  }

  /**
   * One turn of a scan: post `k - 1` is skipped when its identity is
   * recorded; otherwise the turn is taken and its identity recorded.
   */
  lemma ScanStep(turn: Turn, t: Tree, posts: seq<nat>, ids: seq<string>, before: set<string>, b: Budget,
                 env: nat -> Exchange, k: nat)
    requires |ids| == |posts| && 0 < k <= |posts|
    ensures var s := Scan(turn, t, posts, ids, before, b, env, k - 1);
      var s' := Scan(turn, t, posts, ids, before, b, env, k);
      var r := turn(s.page, posts[k - 1], s.budget, env(k - 1));
      && (ids[k - 1] in s.processed ==> s' == s)
      && (ids[k - 1] !in s.processed ==> s' == ScanState(r.page, r.budget, s.processed + {ids[k - 1]}))
  {
  }

  /** A scan with a sound, framed turn keeps the page well-formed, its identities, and the counter within the limit. */
  lemma {:induction false} ScanKeeps(turn: Turn, t: Tree, posts: seq<nat>, ids: seq<string>, before: set<string>, b: Budget,
                                     env: nat -> Exchange, k: nat)
    requires Frames(turn) && Sound(turn) && WellFormed(t) && InPage(t, posts) && |ids| == |posts| && k <= |posts|
    ensures var s := Scan(turn, t, posts, ids, before, b, env, k);
      && WellFormed(s.page) && SameIdentityData(t, s.page)
      && (b.count <= RequestLimit ==> s.budget.count <= RequestLimit)
    decreases k
  {
    if k > 0 {
      ScanKeeps(turn, t, posts, ids, before, b, env, k - 1);
      ScanStep(turn, t, posts, ids, before, b, env, k);
      var s := Scan(turn, t, posts, ids, before, b, env, k - 1);
      if ids[k - 1] !in s.processed {
        var r := turn(s.page, posts[k - 1], s.budget, env(k - 1));
        assert posts[k - 1] < |s.page|;
        assert StepKeeps(s.page, r.page, posts[k - 1]);
        SameIdentityTrans(t, s.page, r.page);
      }
    }
  }

  /** The identities a scan has recorded are those recorded before plus its claims. */
  lemma {:induction false} ScanRecords(turn: Turn, t: Tree, posts: seq<nat>, ids: seq<string>, before: set<string>, b: Budget,
                                       env: nat -> Exchange, k: nat)
    requires |ids| == |posts| && k <= |posts|
    requires forall a, c :: 0 <= a < c < |ids| ==> ids[a] != ids[c]
    ensures Scan(turn, t, posts, ids, before, b, env, k).processed == before + (set x | x in Claims(ids[..k], before))
    decreases k
  {
    if k == 0 {
      assert ids[..0] == [];
    } else {
      ScanRecords(turn, t, posts, ids, before, b, env, k - 1);
      ScanStep(turn, t, posts, ids, before, b, env, k);
      var s := Scan(turn, t, posts, ids, before, b, env, k - 1);
      ClaimStep(ids, k - 1, before);
      if ids[k - 1] !in s.processed {
        ClaimRecorded(ids, before, k - 1, Claims(ids[..k - 1], before), s.processed);
      }
    }
  }

  /** A turn of a framed scan leaves every element but its post as it was. */
  lemma ScanStepOther(turn: Turn, t: Tree, posts: seq<nat>, ids: seq<string>, before: set<string>, b: Budget,
                      env: nat -> Exchange, k: nat)
    requires Frames(turn) && |ids| == |posts| && 0 < k <= |posts|
    ensures var s := Scan(turn, t, posts, ids, before, b, env, k - 1);
      var s' := Scan(turn, t, posts, ids, before, b, env, k);
      |s'.page| == |s.page| && forall e :: 0 <= e < |s.page| && e != posts[k - 1] ==> s'.page[e] == s.page[e]
  {
    ScanStep(turn, t, posts, ids, before, b, env, k);
  }

  /** A framed scan keeps the page's length. */
  lemma {:induction false} ScanLength(turn: Turn, t: Tree, posts: seq<nat>, ids: seq<string>, before: set<string>, b: Budget,
                                      env: nat -> Exchange, k: nat)
    requires Frames(turn) && |ids| == |posts| && k <= |posts|
    ensures |Scan(turn, t, posts, ids, before, b, env, k).page| == |t|
    decreases k
  {
    if k > 0 {
      ScanLength(turn, t, posts, ids, before, b, env, k - 1);
      ScanStepOther(turn, t, posts, ids, before, b, env, k);
    }
  }

  /** A post the scan hands to a sound turn ends that turn marked processed. */
  lemma ScanMarksNew(turn: Turn, t: Tree, posts: seq<nat>, ids: seq<string>, before: set<string>, b: Budget,
                     env: nat -> Exchange, k: nat)
    requires Sound(turn) && |ids| == |posts| && 0 < k <= |posts|
    requires var s := Scan(turn, t, posts, ids, before, b, env, k - 1);
      WellFormed(s.page) && posts[k - 1] < |s.page| && ids[k - 1] !in s.processed
    ensures var s' := Scan(turn, t, posts, ids, before, b, env, k);
      posts[k - 1] < |s'.page| && Attr(s'.page[posts[k - 1]], ProcessedAttr) == Some("1")
  {
    ScanStep(turn, t, posts, ids, before, b, env, k);
  }

  /** In a scan with a sound, framed turn, a post with a new identity ends its own turn marked processed. */
  lemma ScanMarksTurn(turn: Turn, t: Tree, posts: seq<nat>, ids: seq<string>, before: set<string>, b: Budget,
                      env: nat -> Exchange, q: nat)
    requires Frames(turn) && Sound(turn) && WellFormed(t) && InPage(t, posts) && |ids| == |posts| && q < |posts|
    requires forall a, c :: 0 <= a < c < |ids| ==> ids[a] != ids[c]
    requires ids[q] !in before
    ensures var s := Scan(turn, t, posts, ids, before, b, env, q + 1);
      posts[q] < |s.page| && Attr(s.page[posts[q]], ProcessedAttr) == Some("1")
  {
    ScanKeeps(turn, t, posts, ids, before, b, env, q);
    ScanLength(turn, t, posts, ids, before, b, env, q);
    ScanRecords(turn, t, posts, ids, before, b, env, q);
    ClaimStep(ids, q, before);
    ScanMarksNew(turn, t, posts, ids, before, b, env, q + 1);
  }

  /** A post with a new identity stays marked processed from its turn to the end of a scan of `m` posts. */
  lemma ScanMarked(turn: Turn, t: Tree, posts: seq<nat>, ids: seq<string>, before: set<string>, b: Budget,
                   env: nat -> Exchange, q: nat, m: nat)
    requires Frames(turn) && Sound(turn) && WellFormed(t) && InPage(t, posts) && |ids| == |posts| && q < m <= |posts|
    requires forall a, c :: 0 <= a < c < |ids| ==> ids[a] != ids[c]
    requires forall a, c :: 0 <= a < |posts| && 0 <= c < |posts| && a != c ==> posts[a] != posts[c]
    requires ids[q] !in before
    ensures var s := Scan(turn, t, posts, ids, before, b, env, m);
      posts[q] < |s.page| && Attr(s.page[posts[q]], ProcessedAttr) == Some("1")
  {
    ScanMarksTurn(turn, t, posts, ids, before, b, env, q);
    ScanLater(turn, t, posts, ids, before, b, env, q, m);
  }

  /** Every post with a new identity is marked processed once its turn has come. */
  lemma ScanMarks(turn: Turn, t: Tree, posts: seq<nat>, ids: seq<string>, before: set<string>, b: Budget,
                  env: nat -> Exchange, k: nat)
    requires Frames(turn) && Sound(turn) && WellFormed(t) && InPage(t, posts) && |ids| == |posts| && k <= |posts|
    requires forall a, c :: 0 <= a < c < |ids| ==> ids[a] != ids[c]
    requires forall a, c :: 0 <= a < |posts| && 0 <= c < |posts| && a != c ==> posts[a] != posts[c]
    ensures var s := Scan(turn, t, posts, ids, before, b, env, k);
      forall q :: 0 <= q < k && ids[q] !in before ==> posts[q] < |s.page| && Attr(s.page[posts[q]], ProcessedAttr) == Some("1")
  {
    forall q | 0 <= q < k && ids[q] !in before
      ensures var s := Scan(turn, t, posts, ids, before, b, env, k);
        posts[q] < |s.page| && Attr(s.page[posts[q]], ProcessedAttr) == Some("1")
    {
      ScanMarked(turn, t, posts, ids, before, b, env, q, k);
    }
  }

  /**
   * A scan changes only the discovered posts with new identities: elements
   * that are not among the posts seen so far, and posts whose identity was
   * recorded before, are left as they were.
   */
  lemma {:induction false} ScanUntouched(turn: Turn, t: Tree, posts: seq<nat>, ids: seq<string>, before: set<string>, b: Budget,
                                         env: nat -> Exchange, k: nat)
    requires Frames(turn) && |ids| == |posts| && k <= |posts|
    requires forall a, c :: 0 <= a < |posts| && 0 <= c < |posts| && a != c ==> posts[a] != posts[c]
    ensures var s := Scan(turn, t, posts, ids, before, b, env, k);
      |s.page| == |t| && forall e :: 0 <= e < |t| && e !in posts[..k] ==> s.page[e] == t[e]
    ensures var s := Scan(turn, t, posts, ids, before, b, env, k);
      forall q :: 0 <= q < |posts| && ids[q] in before && posts[q] < |t| ==> s.page[posts[q]] == t[posts[q]]
    decreases k
  {
    ScanLength(turn, t, posts, ids, before, b, env, k);
    if k > 0 {
      ScanUntouched(turn, t, posts, ids, before, b, env, k - 1);
      ScanStepOther(turn, t, posts, ids, before, b, env, k);
      ScanStep(turn, t, posts, ids, before, b, env, k);
      var s := Scan(turn, t, posts, ids, before, b, env, k - 1);
      var s' := Scan(turn, t, posts, ids, before, b, env, k);
      assert posts[..k] == posts[..k - 1] + [posts[k - 1]];
      forall e | 0 <= e < |t| && e !in posts[..k]
        ensures s'.page[e] == t[e]
      {
        assert e != posts[k - 1] && e !in posts[..k - 1];
      }
      forall q | 0 <= q < |posts| && ids[q] in before && posts[q] < |t|
        ensures s'.page[posts[q]] == t[posts[q]]
      {
        if q == k - 1 {
          assert ids[k - 1] in s.processed;
        } else {
          assert posts[q] != posts[k - 1];
        }
      }
    }
  }

  /** Once a post's turn is over, later turns leave it alone. */
  lemma {:induction false} ScanLater(turn: Turn, t: Tree, posts: seq<nat>, ids: seq<string>, before: set<string>, b: Budget,
                                     env: nat -> Exchange, k: nat, m: nat)
    requires Frames(turn) && InPage(t, posts) && |ids| == |posts| && k < m <= |posts|
    requires forall a, c :: 0 <= a < |posts| && 0 <= c < |posts| && a != c ==> posts[a] != posts[c]
    ensures var s := Scan(turn, t, posts, ids, before, b, env, m);
      var s1 := Scan(turn, t, posts, ids, before, b, env, k + 1);
      posts[k] < |s.page| && posts[k] < |s1.page| && s.page[posts[k]] == s1.page[posts[k]]
    decreases m
  {
    ScanLength(turn, t, posts, ids, before, b, env, m);
    if m > k + 1 {
      ScanLater(turn, t, posts, ids, before, b, env, k, m - 1);
      ScanLength(turn, t, posts, ids, before, b, env, m - 1);
      ScanStepOther(turn, t, posts, ids, before, b, env, m);
      assert posts[k] != posts[m - 1];
    }
  }

  /**
   * What the cleaner's scan does to a post with a new identity: its turn
   * comes on a well-formed page where the post is still as discovered, the
   * post ends the scan as `ProcessStep` left it with the counter as the
   * earlier turns left it, and the counter moves as that step moved it.
   */
  lemma ScanNewPost(cfg: Settings, parse: string -> Option<JsonObject>, t: Tree, posts: seq<nat>, ids: seq<string>,
                    before: set<string>, b: Budget, env: nat -> Exchange, k: nat)
    requires WellFormed(t) && InPage(t, posts) && |ids| == |posts| && k < |posts|
    requires forall a, c :: 0 <= a < c < |ids| ==> ids[a] != ids[c]
    requires forall a, c :: 0 <= a < |posts| && 0 <= c < |posts| && a != c ==> posts[a] != posts[c]
    requires ids[k] !in before
    ensures var turn := TurnOf(cfg, parse);
      var s := Scan(turn, t, posts, ids, before, b, env, k);
      var s' := Scan(turn, t, posts, ids, before, b, env, |posts|);
      && WellFormed(s.page) && posts[k] < |s.page| && s.page[posts[k]] == t[posts[k]]
      && var r := ProcessStep(cfg, s.page, posts[k], s.budget, env(k), parse);
      && posts[k] < |s'.page| && s'.page[posts[k]] == r.page[posts[k]]
      && Scan(turn, t, posts, ids, before, b, env, k + 1).budget == r.budget
  {
    var turn := TurnOf(cfg, parse);
    var s := Scan(turn, t, posts, ids, before, b, env, k);
    ScanKeeps(turn, t, posts, ids, before, b, env, k);
    ScanUntouched(turn, t, posts, ids, before, b, env, k);
    assert posts[k] !in posts[..k];
    ScanRecords(turn, t, posts, ids, before, b, env, k);
    ClaimStep(ids, k, before);
    assert ids[k] !in s.processed;
    ScanStep(turn, t, posts, ids, before, b, env, k + 1);
    ScanLater(turn, t, posts, ids, before, b, env, k, |posts|);
  }

  /**
   * A whole scan with a sound, framed turn, over posts with distinct
   * identities: the recorded set grows by exactly the claims, the page stays
   * well formed with every identity kept, every post with a new identity ends
   * marked processed, and every other element, as well as every post whose
   * identity was recorded before, is left as it was.
   */
  lemma ScanSummary(turn: Turn, t: Tree, posts: seq<nat>, ids: seq<string>, before: set<string>, b: Budget,
                    env: nat -> Exchange)
    requires Frames(turn) && Sound(turn) && WellFormed(t) && InPage(t, posts) && |ids| == |posts|
    requires forall a, c :: 0 <= a < c < |ids| ==> ids[a] != ids[c]
    requires forall a, c :: 0 <= a < |posts| && 0 <= c < |posts| && a != c ==> posts[a] != posts[c]
    ensures var s := Scan(turn, t, posts, ids, before, b, env, |posts|);
      && s.processed == before + (set x | x in Claims(ids, before))
      && WellFormed(s.page) && SameIdentityData(t, s.page)
      && (b.count <= RequestLimit ==> s.budget.count <= RequestLimit)
      && (forall q :: 0 <= q < |posts| && ids[q] !in before ==> posts[q] < |s.page| && Attr(s.page[posts[q]], ProcessedAttr) == Some("1"))
      && |s.page| == |t| && (forall e :: 0 <= e < |t| && e !in posts ==> s.page[e] == t[e])
      && (forall q :: 0 <= q < |posts| && ids[q] in before ==> s.page[posts[q]] == t[posts[q]])
  {
    assert ids[..|posts|] == ids;
    assert posts[..|posts|] == posts;
    ScanKeeps(turn, t, posts, ids, before, b, env, |posts|);
    ScanRecords(turn, t, posts, ids, before, b, env, |posts|);
    ScanMarks(turn, t, posts, ids, before, b, env, |posts|);
    ScanUntouched(turn, t, posts, ids, before, b, env, |posts|);
  }

  /** A scan over identities that are all recorded changes nothing: no post is processed and the counter stays put. */
  lemma {:induction false} ScanNothingNew(turn: Turn, t: Tree, posts: seq<nat>, ids: seq<string>, before: set<string>, b: Budget,
                                          env: nat -> Exchange, k: nat)
    requires |ids| == |posts| && k <= |posts|
    requires forall q :: 0 <= q < |ids| ==> ids[q] in before
    ensures Scan(turn, t, posts, ids, before, b, env, k) == ScanState(t, b, before)
    decreases k
  {
    if k > 0 {
      ScanNothingNew(turn, t, posts, ids, before, b, env, k - 1);
      ScanStep(turn, t, posts, ids, before, b, env, k);
    }
  }

  /** Recording a new identity extends the claims by it. */
  lemma ClaimRecorded(ids: seq<string>, before: set<string>, k: nat, claimed: seq<string>, processed: set<string>)
    requires k < |ids| && forall a, b :: 0 <= a < b < |ids| ==> ids[a] != ids[b]
    requires claimed == Claims(ids[..k], before) && processed == before + (set x | x in claimed)
    requires ids[k] !in processed
    ensures claimed + [ids[k]] == Claims(ids[..k + 1], before)
    ensures processed + {ids[k]} == before + (set x | x in claimed + [ids[k]])
  {
    ClaimStep(ids, k, before);
  }

  lemma SameIdentityTrans(t1: Tree, t2: Tree, t3: Tree)
    requires SameIdentityData(t1, t2) && SameIdentityData(t2, t3)
    ensures SameIdentityData(t1, t3)
  {
  }

  /** The content script's cleaner object. */
  class FeedCleaner {
    /** Identities already claimed by a scan. */
    var processedPosts: set<string>
    var apiRequestCount: nat
    var lastApiReset: int

    const apiKey: string
    const systemPrompt: string
    const filterMode: string
    const muteWords: seq<string>

    /** The counter never exceeds the limit. */
    predicate Valid()
      reads this
    {
      apiRequestCount <= RequestLimit
    }

    /** The rate limiter's state as a value. */
    function Counter(): Budget
      reads this
    {
      Budget(apiRequestCount, lastApiReset)
    }

    /** A cleaner with the given settings, nothing processed and a fresh window starting at `now`. */
    constructor (apiKey: string, systemPrompt: string, filterMode: string, muteWords: seq<string>, now: int)
      ensures Valid()
      ensures processedPosts == {} && Counter() == Budget(0, now)
      ensures this.apiKey == apiKey && this.systemPrompt == systemPrompt
      ensures this.filterMode == filterMode && this.muteWords == muteWords
    {
      processedPosts := {};
      apiRequestCount := 0;
      lastApiReset := now;
      this.apiKey := apiKey;
      this.systemPrompt := systemPrompt;
      this.filterMode := filterMode;
      this.muteWords := muteWords;
    }

    /** `analyzePost(content, author)`, with the clock reading and the reply as inputs. */
    method AnalyzePost(content: string, author: string, now: int, reply: Reply, parse: string -> Option<JsonObject>)
      returns (analysis: Analysis, request: Option<string>)
      requires Valid()
      modifies this`apiRequestCount, this`lastApiReset
      ensures Valid()
      ensures var r := Analyze(apiKey, systemPrompt, old(Counter()), content, author, now, reply, parse);
        analysis == r.analysis && request == r.request && Counter() == r.budget
    {
      if apiKey == [] {
        return Fallback, None;
      }
      if now - lastApiReset > RequestWindow {
        apiRequestCount := 0;
        lastApiReset := now;
      }
      if apiRequestCount >= RequestLimit {
        return Fallback, None;
      }
      apiRequestCount := apiRequestCount + 1;
      var prompt := ReplaceFirst(systemPrompt, AuthorPlaceholder, author);
      prompt := ReplaceFirst(prompt, ContentPlaceholder, content);
      analysis := DecodeReply(reply, parse);
      request := Some(prompt);
    }

    /** `hidePost(post, analysis, postData)`: hide or blur element `i` unless an indicator already precedes it. */
    method HidePost(page: Page, i: nat, analysis: Analysis, data: PostData)
      requires WellFormed(page.nodes) && i < |page.nodes|
      modifies page
      ensures page.nodes == old(page.nodes)[i := HideNode(old(page.nodes)[i], filterMode, IndicatorFor(analysis, data))]
    {
      var n := page.nodes[i];
      if n.indicator.Some? {
        assert HideNode(n, filterMode, IndicatorFor(analysis, data)) == n;
        assert page.nodes[i := n] == page.nodes;
        return;
      }
      if filterMode == BlurMode {
        n := n.(classes := n.classes + {BlurClass});
      } else {
        n := n.(display := "none", classes := n.classes + {HiddenClass});
      }
      n := n.(attrs := n.attrs[HiddenAttr := "1"]);
      n := n.(indicator := Some(IndicatorFor(analysis, data)));
      page.nodes := page.nodes[i := n];
    }

    /** The indicator's "Show" handler for element `i`; it exists only on a post that has an indicator. */
    method ShowHidden(page: Page, i: nat)
      requires i < |page.nodes| && page.nodes[i].indicator.Some?
      modifies page
      ensures page.nodes == old(page.nodes)[i := ShowNode(old(page.nodes)[i], filterMode)]
    {
      var n := page.nodes[i];
      if filterMode == BlurMode {
        n := n.(classes := n.classes - {BlurClass});
      } else {
        n := n.(display := "");
      }
      n := n.(indicator := None);
      n := n.(classes := n.classes - {HiddenClass});
      n := n.(attrs := n.attrs - {HiddenAttr});
      page.nodes := page.nodes[i := n];
    }

    /** `addScoreIndicator(post, analysis)`: no badge when one is already inside the post, else one badge, in its header when it has one. */
    method AddScoreIndicator(page: Page, i: nat, analysis: Analysis)
      requires WellFormed(page.nodes) && i < |page.nodes|
      modifies page
      ensures page.nodes == old(page.nodes)[i := AddBadge(old(page.nodes), i, analysis.informativeness)]
    {
      var t := page.nodes;
      if HasBadgeWithin(t, i) {
        assert t[i := t[i]] == t;
        return;
      }
      var header := QuerySelector(t, i, HeaderSelector);
      var host := if header.Some? then header.value else i;
      page.nodes := t[i := t[i].(badge := Some(Badge(NumberToString(analysis.informativeness) + "/10", host)))];
    }

    /** Carry out a decision on element `i`. */
    method Perform(page: Page, i: nat, outcome: Outcome, data: PostData)
      requires WellFormed(page.nodes) && i < |page.nodes|
      modifies page
      ensures page.nodes == Apply(old(page.nodes), i, outcome, data, filterMode)
    {
      match outcome
      case Skipped =>
      case Hidden(a) => HidePost(page, i, a, data);
      case Badged(a) => AddScoreIndicator(page, i, a);
    }

    /** The body of `processPost` once the post's data has been extracted. */
    method Handle(page: Page, i: nat, data: PostData, now: int, reply: Reply, parse: string -> Option<JsonObject>)
      returns (outcome: Outcome)
      requires Valid() && WellFormed(page.nodes) && i < |page.nodes|
      modifies page, this`apiRequestCount, this`lastApiReset
      ensures Valid()
      ensures var r := Analyze(apiKey, systemPrompt, old(Counter()), data.content, data.author, now, reply, parse);
        var asked := |data.content| >= MinContentLength && !IsMutedByWords(muteWords, data.content);
        && outcome == Decide(data, muteWords, r.analysis)
        && Counter() == (if asked then r.budget else old(Counter()))
        && page.nodes == Apply(old(page.nodes), i, outcome, data, filterMode)
    {
      ghost var r := Analyze(apiKey, systemPrompt, Counter(), data.content, data.author, now, reply, parse);
      if data.content == [] || |data.content| < MinContentLength {
        outcome := Skipped;
      } else if IsMutedByWords(muteWords, data.content) {
        outcome := Hidden(MutedAnalysis);
      } else {
        var analysis, _ := AnalyzePost(data.content, data.author, now, reply, parse);
        assert analysis == r.analysis;
        if analysis.informativeness < HideBelow || analysis.informativeness == 0 {
          outcome := Hidden(analysis);
        } else {
          outcome := Badged(analysis);
        }
      }
      assert outcome == Decide(data, muteWords, r.analysis);
      Perform(page, i, outcome, data);
    }

    /** `processPost(post)` for element `i`, with the clock reading and the reply the analysis sees; also yields the extracted data. */
    method ProcessPost(page: Page, i: nat, now: int, reply: Reply, parse: string -> Option<JsonObject>)
      returns (outcome: Outcome, data: PostData)
      requires Valid() && WellFormed(page.nodes) && i < |page.nodes|
      modifies page, this`apiRequestCount, this`lastApiReset
      ensures Valid()
      ensures data == ExtractPostContent(old(page.nodes)[i].raw)
      ensures var r := Analyze(apiKey, systemPrompt, old(Counter()), data.content, data.author, now, reply, parse);
        var asked := |data.content| >= MinContentLength && !IsMutedByWords(muteWords, data.content);
        && outcome == Decide(data, muteWords, r.analysis)
        && Counter() == (if asked then r.budget else old(Counter()))
        && page.nodes == Apply(old(page.nodes), i, outcome, data, filterMode)
    {
      data := ExtractPostContent(page.nodes[i].raw);
      outcome := Handle(page, i, data, now, reply, parse);
    }

    /** The settings as a value. */
    function Config(): Settings {
      Settings(apiKey, systemPrompt, filterMode, muteWords)
    }

    /**
     * The loop body for a claimed post: its identity is already recorded;
     * process it, then mark it processed.
     */
    method ProcessAndMark(page: Page, i: nat, exchange: Exchange, parse: string -> Option<JsonObject>)
      returns (outcome: Outcome, data: PostData)
      requires Valid() && WellFormed(page.nodes) && i < |page.nodes|
      requires PostId(page.nodes, i) in processedPosts
      modifies page, this`apiRequestCount, this`lastApiReset
      ensures Valid()
      ensures data == ExtractPostContent(old(page.nodes)[i].raw)
      ensures var r := Analyze(apiKey, systemPrompt, old(Counter()), data.content, data.author, exchange.now, exchange.reply, parse);
        var asked := |data.content| >= MinContentLength && !IsMutedByWords(muteWords, data.content);
        && outcome == Decide(data, muteWords, r.analysis)
        && Counter() == (if asked then r.budget else old(Counter()))
        && page.nodes == Mark(Apply(old(page.nodes), i, outcome, data, filterMode), i)
    {
      outcome, data := ProcessPost(page, i, exchange.now, exchange.reply, parse);
      page.nodes := Mark(page.nodes, i);
    }

    /** Where the loop of `processPosts()` stands after `k` turns: the page, the counter and the set are the scan's. */
    predicate Scanning(page: Page, t: Tree, posts: seq<nat>, ids: seq<string>, before: set<string>, b: Budget,
                       env: nat -> Exchange, parse: string -> Option<JsonObject>, k: nat, claimed: seq<string>)
      reads this, page
    {
      && WellFormed(t) && InPage(t, posts) && |ids| == |posts| && k <= |posts|
      && var s := Scan(TurnOf(Config(), parse), t, posts, ids, before, b, env, k);
      && page.nodes == s.page && Counter() == s.budget && processedPosts == s.processed
      && claimed == Claims(ids[..k], before)
    }

    /**
     * `processPosts()`: discover the posts, and for each whose identity is not
     * yet recorded, record it, process the post and mark it processed. The
     * result lists the identities claimed, in order.
     */
    method ProcessPosts(page: Page, env: nat -> Exchange, parse: string -> Option<JsonObject>)
      returns (claimed: seq<string>)
      requires Valid() && WellFormed(page.nodes)
      modifies page, this`processedPosts, this`apiRequestCount, this`lastApiReset
      ensures Valid()
      ensures var t := old(page.nodes);
        var posts := LinkedInPosts(t);
        && InPage(t, posts)
        && var s := Scan(TurnOf(Config(), parse), t, posts, IdsOf(t, posts), old(processedPosts), old(Counter()), env, |posts|);
        && page.nodes == s.page && Counter() == s.budget && processedPosts == s.processed
      ensures var t := old(page.nodes);
        var posts := LinkedInPosts(t);
        InPage(t, posts) && claimed == Claims(IdsOf(t, posts), old(processedPosts))
      ensures processedPosts == old(processedPosts) + (set x | x in claimed)
      ensures WellFormed(page.nodes) && SameIdentityData(old(page.nodes), page.nodes)
      ensures var t := old(page.nodes);
        var posts := LinkedInPosts(t);
        forall k :: 0 <= k < |posts| && IdsOf(t, posts)[k] !in old(processedPosts) ==>
          posts[k] < |page.nodes| && Attr(page.nodes[posts[k]], ProcessedAttr) == Some("1")
      ensures var t := old(page.nodes);
        var posts := LinkedInPosts(t);
        |page.nodes| == |t| && forall e :: 0 <= e < |t| && e !in posts ==> page.nodes[e] == t[e]
      ensures var t := old(page.nodes);
        var posts := LinkedInPosts(t);
        InPage(t, posts) &&
        forall q :: 0 <= q < |posts| && IdsOf(t, posts)[q] in old(processedPosts) ==> page.nodes[posts[q]] == t[posts[q]]
    {
      var t := page.nodes;
      var before := processedPosts;
      ghost var b := Counter();
      ScannedIds(t);
      var posts := GetLinkedInPosts(t);
      var ids := IdsOf(t, posts);
      claimed := [];
      assert ids[..0] == [];
      for k := 0 to |posts|
        invariant Valid() && Scanning(page, t, posts, ids, before, b, env, parse, k, claimed)
      {
        claimed := Visit(page, t, posts, ids, before, b, k, claimed, env, parse);
      }
      assert ids[..|posts|] == ids;
      ScanSummary(TurnOf(Config(), parse), t, posts, ids, before, b, env);
    }

    /** One turn of the loop in `processPosts()`: record post `k`'s identity before processing it, unless it is recorded already. */
    method Visit(page: Page, ghost t: Tree, posts: seq<nat>, ids: seq<string>, ghost before: set<string>, ghost b: Budget,
                 k: nat, claimed: seq<string>, env: nat -> Exchange, parse: string -> Option<JsonObject>)
      returns (claimed': seq<string>)
      requires Valid() && Scanning(page, t, posts, ids, before, b, env, parse, k, claimed)
      requires k < |posts| && ids == IdsOf(t, posts)
      requires forall a, c :: 0 <= a < c < |ids| ==> ids[a] != ids[c]
      modifies page, this`processedPosts, this`apiRequestCount, this`lastApiReset
      ensures Valid() && Scanning(page, t, posts, ids, before, b, env, parse, k + 1, claimed')
    {
      ghost var turn := TurnOf(Config(), parse);
      ScanKeeps(turn, t, posts, ids, before, b, env, k);
      ScanStep(turn, t, posts, ids, before, b, env, k + 1);
      PostIdStable(t, page.nodes, posts[k]);
      var id := GetPostUniqueId(page.nodes, posts[k]);
      ScanRecords(turn, t, posts, ids, before, b, env, k);
      ClaimStep(ids, k, before);
      claimed' := claimed;
      if id in processedPosts {
        return;
      }
      processedPosts := processedPosts + {id};
      claimed' := claimed + [id];
      var _, _ := ProcessAndMark(page, posts[k], env(k), parse);
    }
  }
}
