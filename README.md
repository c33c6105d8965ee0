# LinkedIn feed cleaner — a verified model of the cleaning pipeline

This project models the feed-cleaning pipeline of the `LinkedInFeedCleaner`
class of the browser extension (content.js). It proves the properties that
pipeline promises. The model has five cooperating parts.

- **Identity and discovery**:
  - A post's identity is its URN, else its `data-id`, else a 32-bit rolling hash of its text.
  - Discovery finds the canonical post elements that are not hidden, not processed and have a non-zero size.
  - It keeps one element per identity: the last element seen, in order of first appearance.
- **Processing loop**: `processPosts` claims each new identity in `processedPosts` before it processes the post, and marks the post processed afterwards. The set only grows. The loop is proved equal to `Cleaner.Scan`, which takes one turn per discovered post.
- **Rate limiter and reply decoding**:
  - `analyzePost` keeps a fixed-window counter of 100 requests per 60 000 ms.
  - It decodes the first `{...}` object of the model's reply. The score is `parseInt(...) || 8` and the category is `category || 'normal'`.
  - Every failure falls back to `{8, 'normal'}`.
- **Policy and visibility**:
  - A muted post is hidden.
  - Otherwise a post is hidden when its score is below 7 and badged when it is not.
  - Hiding either blurs the post or sets `display: none`. It places one indicator with a label and a 10-token preview.
  - "Show" reverses the hide.
  - The badge is added at most once.
- **String normalisation**: `collapseDuplicate`, `normalizeName`, `normalizeRole` and `isMutedByWords`.

The page is a sequence of element records in document order. Each record names its parent by position, and a parent always precedes its children (`Dom`).

The JavaScript library behaviour the code depends on is written out in `JsText`:
- `trim` and `\s`;
- ASCII `toLowerCase`;
- `split` and `join`;
- first-occurrence `replace`;
- `parseInt` and `String(n)`.

The regular expressions of the code are written as predicates on positions. The 32-bit wrap-around of `hash |= 0` is explicit (`Identity.Wrap32`).

The stateful parts take the source's form:
- `Cleaner.FeedCleaner` is a class with the fields `processedPosts`, `apiRequestCount` and `lastApiReset`.
- `Cleaner.Page` holds the page, which the hide, show and badge methods rewrite.
- The loops of `processPosts`, `getLinkedInPosts`, `getPostUniqueId` and `normalizeRole` are methods with loop invariants.
- Each such method is proved equal to a specification function, and the properties are proved about that function.

Inputs the model cannot see become parameters:
- The clock reading and the model's reply for the k-th discovered post of a scan are `env(k)`.
- `JSON.parse` is the partial function `parse`.
- The stored settings are constructor parameters.

Where the code and the design description differ, the model follows the code:
- "Show" in hide mode resets `display` to `''`. It does not restore the value the element had before, so "Show" undoes a hide exactly when that value was `''` (`Visibility.ShowUndoesHide`).
- An oracle score of 0 decodes to 8, because `parseInt(...) || 8` treats 0 as missing. No score is clamped, and any category string passes through.
- Posts skipped for short content are still added to `processedPosts`, because the claim comes before `processPost` runs.
- A single whitespace-free token `XX` collapses to `X` in `normalizeName` (`Normalize.NormalizeDoubledToken`).
  - The same step also cuts a name whose compacted form is doubled, even when the words differ.
  - For example, `"Ann Lee AnnLee"` compacts to `"AnnLeeAnnLee"`, whose first half is `"AnnLee"`. The result keeps only the first word of that half, `"Ann"`.
  - A plain name that neither check matches is returned unchanged (`Normalize.NormalizePlainName`).

## Model

| member | source | states |
|---|---|---|
| Identity.Wrap32 | content.js:241 | `hash \|= 0` lands in [-2^31, 2^31) and differs from the exact value by a multiple of 2^32 |
| Identity.Wrap32Absorbs | content.js:238-242 | wrapping after every step hashes the same as wrapping once at the end |
| Identity.HashKey | content.js:237 | the hashed text is at most the first 300 characters of the trimmed, whitespace-collapsed text |
| Identity.TextHash | content.js:238-242 | the accumulator loop computes the rolling ×31 hash of the text, always a signed 32-bit value |
| Identity.HashStep | content.js:240-241 | one more character multiplies the hash by 31, adds the character code and wraps to 32 bits |
| Identity.GetPostUniqueId | content.js:225-244 | the method returns the identity chosen by the priority rule |
| Identity.PostIdKind | content.js:225-244 | the identity starts with `urn:` exactly when a URN is truthy, with `dataid:` exactly when there is no URN and `data-id` is truthy, and with `txt:` exactly when neither is |
| Identity.OwnUrnWins | content.js:227-231 | a truthy `data-urn` on the element itself gives `"urn:" + value`, whatever its descendants hold |
| Identity.DescendantUrn | content.js:227-231 | without its own URN, the element takes the URN of its first descendant in document order whose URN starts with the activity prefix |
| Identity.PostIdStable | content.js:225-244 | the identity depends only on the shape of the page, the two identity attributes and the text; in the model, hiding, marking and badging change none of these |
| Identity.TextIdReadsPrefix | content.js:235-243 | two elements without URN or `data-id` whose first 300 normalised characters agree get the same identity |
| Identity.HashCollision | content.js:238-243 | different texts can share an identity: "Aa" and "BB" hash alike |
| Discovery.Canonical | content.js:215-223 | a candidate's canonical element is the candidate itself or one of its ancestors |
| Discovery.CanonicalPrefersOccludable | content.js:217-220 | when the candidate or an ancestor is an occludable update, the canonical element is one |
| Discovery.ClosestFinds | content.js:217-220 | `closest` finds a match whenever the element or one of its ancestors matches |
| Discovery.VisibleOf | content.js:195-204 | every kept element is eligible (not hidden, not processed, positive width and height), every eligible canonical element is kept, and nothing else is |
| Discovery.CollectCandidates | content.js:184-193 | the selector loop collects the elements matching each feed selector, in selector order |
| Discovery.KeepVisible | content.js:195-204 | the filtering loop keeps the eligible canonical elements of the candidates |
| Discovery.IdsOf | content.js:207-210 | one identity per discovered element, in order |
| Discovery.FirstSeen | content.js:207-212 | the map's keys are distinct and are exactly the identities seen |
| Discovery.LastSeen | content.js:207-210 | the map has an entry for exactly the identities seen |
| Discovery.SeenStep | content.js:208-210 | one `map.set` appends a new key at the end, keeps the order of an old key and replaces its value |
| Discovery.DedupeById | content.js:207-212 | the Map-filling loop yields one element per identity, the last seen, in order of first appearance |
| Discovery.MapValues | content.js:212 | `Array.from(map.values())` lists the value of each key in key order |
| Discovery.GetLinkedInPosts | content.js:182-213 | the method returns the discovered posts |
| Discovery.FirstSeenOrder | content.js:207-212 | the keys of the result are in order of first occurrence |
| Discovery.LastSeenIsLast | content.js:208-210 | the element kept for an identity is its last occurrence |
| Discovery.LinkedInPostsSpec | content.js:182-213 | the discovered posts are eligible, have pairwise distinct identities, cover every visible identity once, follow order of first appearance, and each is the last visible element with its identity |
| Classification.CategoryOf | content.js:397 | the category is truthy, and it is the parsed category whenever that one is truthy |
| Classification.ScoreOfNumber | content.js:396 | a numeric score n decodes to n, except 0, which decodes to 8 |
| Classification.ScoreOfNumeral | content.js:396 | a score given as a decimal string decodes to its value, except 0 |
| Classification.ScoreNeverZero | content.js:396 | `parseInt(...) \|\| 8` is never 0 |
| Classification.NotANumeral | content.js:396 | a string starting with a character other than whitespace, a digit or a sign does not parse |
| Classification.ScoreOfMissing | content.js:396 | an absent, null, boolean or non-numeric score decodes to 8 |
| Classification.ObjectEnd | content.js:382-384 | finds the end of the `{[^}]+}` match starting at a position exactly when there is one |
| Classification.ObjectFrom | content.js:382-384 | finds the leftmost match of `{[^}]+}` at or after a position |
| Classification.ObjectMatchUnique | content.js:382-384 | a match is determined by where it starts |
| Classification.FirstObjectSpec | content.js:382-384 | no object is extracted exactly when the reply text has no match; otherwise the extracted text is the leftmost match |
| Classification.DecodeReplySpec | content.js:371-406 | a failed request, a reply with `data.error`, no candidate text, no braced object, an unparsable object or an object with a truthy `parsed.error` yields the fallback `{8, 'normal'}`; any other reply yields the parsed object's decoded score and category; every result has a non-zero score and a truthy category |
| Classification.DecodeScore | content.js:382-397 | an error-free parsed object with a numeric score and a category string decodes to that score (0 becoming 8) and that category |
| Classification.Admit | content.js:338-350 | after more than 60 000 ms the window restarts and admits one request; inside the window a request is admitted exactly when fewer than 100 were admitted, and then the count grows by exactly one; the count never exceeds 100 |
| Classification.AdmittedWithinWindow | content.js:338-350 | within one window exactly min(requests, room left) requests are admitted, never more than 100 in total |
| Classification.WindowBoundary | content.js:339 | at exactly 60 000 ms the window has not yet reset; 1 ms later it has |
| Cleaner.AnalyzeSpec | content.js:332-407 | a request is made exactly when there is an API key and the limiter admits it; without a key the counter is untouched; a call without a request falls back to `{8, 'normal'}`; the counter stays within 100; the score is non-zero and the category truthy |
| Cleaner.FeedCleaner.AnalyzePost | content.js:332-407 | the method returns the analysis and request of the specification and leaves the counter fields in the state it gives |
| Cleaner.DecideSpec | content.js:409-434 | a post is skipped exactly when its content is shorter than 10; a long muted post is hidden as muted whatever the analysis; any other long post is hidden exactly when its score is below 7 and badged otherwise |
| Cleaner.ZeroScoreIsBadged | content.js:394-397 | an oracle score of 0 becomes 8, so such a post is badged, not hidden |
| Cleaner.ApplyKeeps | content.js:429-434 | carrying out a decision keeps the page well formed, keeps every identity and changes no attribute other than the hidden marker |
| Cleaner.FeedCleaner.Handle | content.js:419-434 | the analysis is requested only for long, unmuted posts; the outcome is the decision and the page is changed accordingly |
| Cleaner.FeedCleaner.ProcessPost | content.js:409-439 | the post's data is extracted, the counter advances only when the analysis is requested, and the page carries out the decision |
| Cleaner.FeedCleaner.ProcessAndMark | content.js:175-178 | callable only once the post's identity is recorded; the data is extracted from the post, the outcome is the decision on the analysis, the counter advances only when the analysis is requested, and the page is the decision carried out with the post then marked processed |
| Cleaner.ProcessStepKeeps | content.js:176-178 | processing then marking keeps every identity, marks the post processed, changes no other element and no other processed marker |
| Cleaner.ProcessStep | content.js:176-178 | one turn for a claimed post: only that post changes, it ends marked, identities are kept and the counter stays within 100 |
| Cleaner.TurnOf | content.js:176-178 | the cleaner's turn is framed and sound, and on a well-formed page it is `ProcessStep` with the settings |
| Cleaner.Scan | content.js:170-179 | the turns of the loop over the discovered posts; the recorded set only grows |
| Cleaner.ScanStep | content.js:172-178 | a post whose identity is recorded is skipped with nothing changed; otherwise its identity is recorded and its turn taken |
| Cleaner.ScanKeeps | content.js:170-179 | a scan keeps the page well formed, keeps every identity, and keeps the counter within 100 |
| Cleaner.ScanRecords | content.js:172-176 | after a scan the recorded set is the set before plus the claimed identities |
| Cleaner.ScanStepOther | content.js:176-178 | a turn changes no element but its own post |
| Cleaner.ScanLength | content.js:170-179 | a scan keeps the number of elements |
| Cleaner.ScanMarksNew | content.js:176-178 | a post handed to its turn ends that turn marked processed |
| Cleaner.ScanMarksTurn | content.js:175-178 | a post with a new identity ends its own turn marked processed |
| Cleaner.ScanMarked | content.js:170-179 | a post with a new identity stays marked processed from its turn to the end of the scan |
| Cleaner.ScanMarks | content.js:170-179 | every discovered post with a new identity is marked processed once its turn has come |
| Cleaner.ScanSummary | content.js:170-179 | a whole scan: the set grows by exactly the claims, the page stays well formed with every identity kept, every post with a new identity ends marked, and everything else is left as it was |
| Cleaner.ScanUntouched | content.js:170-179 | elements that are not discovered posts, and posts whose identity was recorded before, are left as they were |
| Cleaner.ScanLater | content.js:170-179 | once a post's turn is over, later turns leave it alone |
| Cleaner.ScanNewPost | content.js:170-179 | a post with a new identity is processed on the page as the earlier turns left it, while the post itself is still as discovered; it ends the scan as that step left it, and the counter moves as that step moved it |
| Cleaner.ScanNothingNew | content.js:172-174 | a scan over identities that are all recorded changes nothing |
| Cleaner.ClaimRecorded | content.js:175 | recording a new identity extends the claims by it |
| Cleaner.Claims | content.js:170-177 | claims are the new identities of the scan, each once |
| Cleaner.ClaimsSpec | content.js:170-177 | the claims are pairwise distinct, none was recorded before, and every scanned identity is recorded afterwards |
| Cleaner.ClaimsNothingNew | content.js:172-174 | a scan of identities that are all recorded claims nothing |
| Cleaner.ClaimStep | content.js:172-176 | each step claims the identity exactly when it was not recorded before the scan |
| Cleaner.ClaimsOnce | content.js:170-177 | scanning the same posts again processes nothing: no identity is processed twice |
| Cleaner.ClaimsDistinct | content.js:170-177 | over distinct identities, the claims are exactly those not recorded before |
| Cleaner.FeedCleaner.Visit | content.js:171-178 | one loop iteration takes the page, counter and recorded set from the scan's state after k turns to its state after k + 1 |
| Cleaner.FeedCleaner.ProcessPosts | content.js:168-180 | the final page, counter and set are those of the scan of the discovered posts; the set grows by exactly the claimed identities; claims are the discovered identities not recorded before, in order; every discovered post with a new identity ends up marked processed, short posts included; skipped posts and elements that are not discovered posts are unchanged; identities never change |
| Cleaner.FeedCleaner.constructor | content.js:2-21 | starts with an empty set, count 0 and the reset time `now`, with the given settings |
| Cleaner.FeedCleaner.HidePost | content.js:441-525 | the post becomes its hidden form; nothing else on the page changes |
| Cleaner.FeedCleaner.ShowHidden | content.js:513-522 | on a post that has an indicator (the handler exists only there), the post becomes its shown form; nothing else on the page changes |
| Cleaner.FeedCleaner.AddScoreIndicator | content.js:527-547 | the post gets the badge unless a badge already sits inside it; nothing else on the page changes |
| Cleaner.FeedCleaner.Perform | content.js:429-434 | hides, badges or leaves the post as the decision says |
| Visibility.HideNode | content.js:441-493 | hiding an element that already has an indicator changes nothing; otherwise it sets the hidden marker and places the indicator, then blurs it (display kept) in blur mode or hides it with `display: none` otherwise; each mode adds only its own cleaner class and leaves the other one as it was; the tag, size, text, badge, parent, every other attribute and every class other than the blur and hidden classes are kept |
| Visibility.ShowNode | content.js:513-522 | after "Show" there is no indicator, hidden class or hidden marker; blur mode removes the blur class and keeps `display`, hide mode sets `display` to `''` and leaves the blur class as it was; the tag, size, text, badge, parent, every other attribute and every class other than the blur and hidden classes are kept |
| Visibility.ShowUndoesHide | content.js:447-522 | "Show" restores an untouched element exactly when in blur mode or when its `display` was `''` |
| Visibility.HideIdempotent | content.js:443-445 | hiding twice is hiding once: at most one indicator precedes a post |
| Visibility.FlaggedLabels | content.js:464-486 | the five flagged categories label as "0/10" with their fixed explanation whatever the score; "muted" labels as "Muted" |
| Visibility.DefaultLabelShowsScore | content.js:490-492 | any other category labels as "Low informativeness" with a score text that parses back to the score |
| Visibility.ParseScoreText | content.js:491 | `score + "/10"` parses back to the score, negative scores included |
| Visibility.PreviewShort | content.js:455-456 | up to ten tokens the preview is the whole content |
| Visibility.PreviewLong | content.js:455-456 | beyond ten tokens the preview is the first ten space-separated tokens of the content, joined by spaces, followed by "..." |
| Visibility.AddBadge | content.js:527-547 | a badge anywhere in the post's subtree leaves the post unchanged; otherwise the post records a badge showing `score + "/10"` hosted on its first header, else on the post itself |
| Visibility.BadgeHost | content.js:538-546 | without a badge in the subtree, the new badge is hosted on the post or on a header inside it, and its text parses back to the score |
| Visibility.NestedBadgeBlocks | content.js:529-531 | a badge recorded on an element inside the post and hosted inside that element blocks a new badge |
| Visibility.BadgeIdempotent | content.js:529-531 | adding a badge twice is adding it once |
| Normalize.HalvesEqualShape | content.js:555-561 | the halves test holds exactly for texts of the form X+X or X+c+X |
| Normalize.CollapseDoubled | content.js:555-561 | X+X collapses to X trimmed |
| Normalize.CollapseWithMiddle | content.js:555-561 | X+c+X collapses to X trimmed, the middle character dropped |
| Normalize.CollapseSingleChar | content.js:555-561 | a single character collapses to the empty text |
| Normalize.CollapseShrinks | content.js:555-561 | the text is returned unchanged or shrinks to at most half its length |
| Normalize.UppercaseWordNeverMatches | content.js:549-553 | a mute word with an upper-case letter never matches, since words are not lowercased |
| Normalize.EmptyWordsNeverMute | content.js:549-553 | an empty mute list, or one of empty words only, never mutes |
| Normalize.MuteIgnoresContentCase | content.js:549-553 | the case of the content does not matter |
| Normalize.MuteExample | content.js:549-553 | "crypto" mutes "Buy CRYPTO now" and "Crypto" does not |
| Normalize.RepeatedUnit | content.js:578-585 | a compacted name counts as repeated only when it is some non-empty unit written twice |
| Normalize.RepeatedUnitOfDoubled | content.js:578-585 | a doubled single-line unit is recognised as that unit |
| Normalize.PlainNameSurvivesCuts | content.js:565-568 | a plain name loses nothing to trimming, the bullet cut, the ordinal cut or space collapsing |
| Normalize.CollapseEqualHalves | content.js:570-576 | a name written twice over whole words collapses to one copy |
| Normalize.NormalizeRepeatedName | content.js:563-587 | a plain name written twice normalises to one copy |
| Normalize.NormalizeDoubledToken | content.js:578-585 | a single whitespace-free token XX normalises to X |
| Normalize.NormalizePlainName | content.js:563-587 | a plain name whose words are not two equal halves and whose compacted form is not a unit said twice normalises to itself |
| Normalize.NormalizeJohnDoe | content.js:563-587 | "John Doe John Doe" normalises to "John Doe" |
| Normalize.CutBulletAfterName | content.js:566 | the bullet cut removes " • …" after a plain name |
| Normalize.BulletSectionDropped | content.js:563-587 | a name followed by " • " and a single-line suffix normalises like the name alone |
| Role.DotRun | content.js:593 | the run of dots at the start of the text |
| Role.SeparatorRun | content.js:596-599 | the run of separator characters at the start of the text |
| Role.SeparatorFrom | content.js:596-599 | finds the leftmost separator at or after a position |
| Role.SplitSeparators | content.js:596-599 | splitting always yields at least one piece |
| Role.TrimmedPieces | content.js:597-599 | only non-empty trimmed pieces remain |
| Role.Keep | content.js:603-617 | a kept segment is non-empty and passes every filter: it does not name the author and has no ordinal, metadata or tag |
| Role.KeptOf | content.js:603-617 | the verdict for each segment, in order |
| Role.KeysAppend | content.js:614-615 | recording a segment adds its lowercased key to the seen set |
| Role.Cleaned | content.js:603-617 | the cleaned segments are pairwise distinct ignoring case |
| Role.CleanSegments | content.js:603-617 | the segment loop computes the cleaned segments |
| Role.CleanedFirstSeen | content.js:612-616 | each cleaned segment is the first kept segment with its key |
| Role.KeptKeyIsSeen | content.js:612-616 | the key of every kept segment appears among the cleaned ones |
| Role.CleanedOrder | content.js:603-617 | cleaned segments keep the order in which they were first seen |
| Role.Truncate | content.js:620-622 | a role of up to 160 characters is unchanged; a longer one keeps its first 160 characters and gets "…" |
| Role.RoleShape | content.js:589-624 | the role is at most 161 characters, and it is the cleaned segments joined by ", " when that fits |
| Role.NormalizeRole | content.js:589-624 | the method returns the normalised role, at most 161 characters long |
| Extraction.FallbackName | content.js:276-289 | the fallback name is empty or longer than 1 and shorter than 120 characters |
| Extraction.FirstNonEmpty | content.js:292-300 | empty exactly when every role text is empty |
| Extraction.ExtractPostContent | content.js:246-330 | the author is the normalised name or "Unknown", the role is at most 161 characters, and the content is trimmed |
| Extraction.TrimDropsTrailingSpace | content.js:256-263 | the space appended after each body text is removed by the final trim |
| Extraction.SingleBodyText | content.js:256-263 | a post with a single body text has that text, trimmed, as its content |
| JsText.ParseIntNumberToString | content.js:396 | `parseInt(String(n))` is n for every integer the model has; JSON numbers above 2^53 are left out, which also excludes magnitudes from 10^21 on, where `String(n)` is exponent notation and the equation fails |
| JsText.JoinSplit | content.js:455 | joining the split tokens with the separator gives the text back |
| JsText.SplitJoin | content.js:455-456 | splitting a join of separator-free tokens gives the tokens back |

## Left out

- Asynchrony and I/O are not modelled: `fetch` and `response.json`, the `MutationObserver`, `debounce`/`setTimeout` and `startObserving`. Each scan runs to completion, and the clock reading and the reply for the k-th discovered post are the input `env(k)`.
- Re-entrancy is not modelled: a second `processPosts` run that starts while the first awaits an analysis cannot be expressed. The order that guards against it, recording an identity before processing the post, is the precondition of `Cleaner.FeedCleaner.ProcessAndMark`.
- `init` and `loadSettings` read `chrome.storage`; the settings they load are constructor parameters.
- `getDefaultPrompt` is a constant string; the prompt template is a constructor parameter.
- `console` logging is not modelled. The `catch` in `processPost` (content.js:436-438) only logs. The `catch` in `analyzePost` (content.js:403-406) returns the fallback, and the model yields the fallback for every failure it can express.
- `JSON.parse` is the partial function `parse`. A parse that throws is `None`, which leads to the fallback.
- JSON numbers and other values are integers, strings, booleans, null or opaque composites. Fractional numbers and integers above 2^53 are not modelled: above 2^53 not every integer is a JavaScript number, and from 10^21 on `String(n)` is in exponent notation, so `parseInt(String(1e21))` is 1.
- Characters are Unicode code points, while JavaScript strings count UTF-16 code units. The 300-character hash prefix, the 120-character name bound and the 160-character role bound therefore differ for characters outside the Basic Multilingual Plane. Likewise the hash adds the code point, not the UTF-16 unit.
- `toLowerCase` is modelled for ASCII letters only.
- First-occurrence `String.replace` of the prompt placeholders does not expand `$` patterns.
- Page geometry is a width-and-height record in place of `getBoundingClientRect`.
- Rendering is not modelled: the `innerHTML` templates of the indicator and badge (including their lack of HTML escaping), `style.position` and the click listener itself. The indicator is recorded on the element it precedes. The badge is recorded on the post, with the element it was appended to (the header or the post) as a field.
- `innerText` is a fixed field of each element. In the browser, `display: none` (content.js:450) and an appended badge (content.js:541, 545) change the `innerText` that the text hash reads (content.js:237), and so does the indicator inserted in front of a hidden post (content.js:524) for every element that encloses it; so a text-only identity can change after a post is hidden or badged; the model keeps it unchanged.
- HideNode always records the indicator. In the browser, `insertBefore` on a post without a parent (content.js:524) throws after the hidden class, `display` and marker are already set (content.js:447-452), and the `catch` in processPost (content.js:436-438) swallows the error, so such a post ends up hidden with no "Show" indicator; the model has no parentless post in the feed to hide.
- Extraction's DOM queries (content.js:246-330) are abstracted. Their results are the `RawPost` record of texts each element carries: body texts, the author link, fallback name texts, role texts and the avatar source.
- Extraction.ExtractPostContent: states the bounds and the fallbacks of the author fields, not the exact avatar selection order.
- `selectorCache`, `hideCommentActivity` and `hidePeopleSuggestions` are never read by the cleaner.
- popup.js (the settings form) and background.js (the tab listeners) are not part of this model.
