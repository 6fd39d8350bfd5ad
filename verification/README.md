# Focus Guardian decision engine, in Dafny

A model of the core of the Focus Guardian browser extension. This is the part
that decides whether a page the user navigates to should raise a "this distracts
from your goal" warning, together with the state it keeps:

- **Decision pipeline** (`handleUrlCheck`). Checks run in a fixed order: block
  list, then host allow list and exact-page signatures, then the URL-decision
  cache, then the built-in productivity domains, then the missing-configuration
  gates (API key, focus goal, page content), and finally the remote classifier.
- **URL-decision cache**. A map from the raw URL to the last decision written
  for it, stamped with the write time. Reads are TTL-checked and evict lazily.
  A cleanup drops expired entries and then trims by write recency.
- **Classifier client**. Covers the retry loop of `analyzePageWithAI`, which
  makes at most three attempts, and the text fallback parser
  `parseAIResponseFallback`. It also covers the one-word parser and skip test of
  ai-helper.js.
- **Flight manager**. A focus session ("flight") that collects turbulence
  (distraction) events and is force-landed with outcome `fail` at the fifth.
  Finished flights go into a history of at most 20 records, most recent first.
- **Normalizers**. Domain-list sanitizing, URL signatures
  (`host|path[|key|value]`) and the migration of stored signatures.
- **Response builder** of background/responses.js, and the **popup helpers**:
  domain-list parsing, signature and duration formatting, HTML escaping, flight
  data normalization, the streak, recent goals and outcome labels.

Every component is pure. The clock is an explicit `now: int` parameter. Each
handler is one atomic step `State -> (State, Result)`. Storage writes are
no-ops. A URL is given already parsed, as `Option<ParsedUrl(host, path, query)>`
alongside the raw string that keys the cache; `None` stands for a URL the URL
constructor rejects. The network exchange with the classifier is replaced by a
`Script`, which lists the outcomes of the three attempts. Each outcome is either
a transport error or a reply text plus the result of `JSON.parse` on it. The
pipeline receives the classifier's outcome `ai` (what `analyzePageWithAI`
resolves with or throws, `Classifier.AnalyzePage` of a script) and looks at it
only once the checks reach the classifier.

Modules (one file each): `Optional`, `Strings` (the JavaScript string and array
primitives), `Constants`, `Cache`, `Stats`, `Flight`, `Normalize`, `Responses`,
`Classifier`, `AiHelper`, `Pipeline`, `Popup`.

Behaviours of the code worth noting:

- Only a task update clears the cache (background.js:813-817). Replacing the
  block list, the allow list or the allowed-URL signatures keeps every cached
  decision (background.js:220-234, 311-315). A decision cached for a page is
  therefore still served after the page's signature has been removed.
- `isStrictlyBlocked` has no guard against an empty entry, so an empty block
  entry blocks every host (`Pipeline.EmptyBlockEntryBlocksAll`). `isUserAllowed`
  does skip empty entries.
- The built-in productivity skip of the pipeline (source `whitelist`) can only
  fire for the built-in productivity domains. A user-allowed host has already
  been answered by the allow-list step (`Pipeline.WhitelistMeansBuiltin`).
- `parseDomainList` strips one `www.` prefix, not every one, so `www.www.x.com`
  yields `www.x.com` (`Popup.DoubledWwwKeepsOne`).
- `get` treats an entry aged exactly the TTL as expired, while `cleanup` keeps
  it (`Cache.TtlBoundaryQuirk`).

## Model

| member | source | states |
|---|---|---|
| Flight.GetSnapshot | background/flight.js:24-43 | the snapshot is active exactly while a flight with status `inflight` exists; it always reports the limit 5; with no flight it reports turbulence 0 and no status, id, start, goal or duration; for a flight it reports its status, turbulence, start time, goal snapshot and id, and the duration `now - startedAt` (0 when the start time is 0) |
| Flight.DetermineOutcome | background/flight.js:149-153 | the three outcomes partition the turbulence counts: perfect iff at most 0, delayed iff 1..limit-1, fail iff at least the limit |
| Flight.OutcomeMonotone | background/flight.js:149-153 | more turbulence never yields a better outcome |
| Flight.Start | background/flight.js:57-72 | while a flight is in progress, start is refused with `flight-in-progress` and the state is unchanged; otherwise a fresh flight with turbulence 0, no events and the current goal as its snapshot is created, and history is untouched; the state invariant is preserved |
| Flight.Prepend | background/flight.js:100-101 | the new record heads the history, followed by the old records in order, and the length is capped at HISTORY_LIMIT |
| Flight.End | background/flight.js:74-105 | without a flight, end fails with `no-flight` and changes nothing; an unforced, unskipped flight shorter than MIN_DURATION_MS is discarded with `tooShort` and history is unchanged; every other end lands and clears the flight; the record carries the flight's id, goal, start time, the end time `now`, the elapsed duration, its turbulence and the forced or derived outcome, and the new history is exactly that record in front of the old history, capped at 20; the invariant is preserved |
| Flight.RegisterTurbulence | background/flight.js:107-123 | when idle, nothing changes and `applied:false` is reported; otherwise turbulence rises by exactly one and exactly one turbulence event is appended; reaching the limit force-lands the flight with outcome `fail` and a record carrying the new turbulence; the invariant (in-flight turbulence below the limit and equal to the number of turbulence events) is preserved |
| Flight.LastTurbulence | background/flight.js:134-143 | the backward scan finds the last turbulence event of the log, or reports that there is none |
| Flight.RollbackTurbulence | background/flight.js:125-147 | refused with `no-flight` when idle and with `no-turbulence` at zero, without a state change; otherwise turbulence drops by one (never below 0) and only the last turbulence event is removed, while the flight's id, start, goal and status and the history stay as they were; the turbulence-event count drops by one |
| Flight.RemoveLastTurbulenceCount | background/flight.js:133-143 | removing the last turbulence event lowers the number of turbulence events by exactly one |
| Flight.RemoveLastTurbulenceShape | background/flight.js:134-143 | the rollback cuts out exactly the most recent turbulence event; the events before and after it stay, in order |
| Flight.RepeatedTurbulenceBelowLimit | background/flight.js:107-123 | fewer than TURBULENCE_LIMIT registrations keep the flight in the air with that much turbulence and leave history alone |
| Flight.LimitRegistrationsForceLanding | background/flight.js:107-123 | TURBULENCE_LIMIT registrations after a start force exactly one landing: the flight is gone and history gains one `fail` record with turbulence equal to the limit |
| Stats.Increment | background/helpers.js:11-16 | an unknown key leaves the counters unchanged; a known counter goes up by exactly one and every other counter keeps its value |
| Stats.InitFrom | background/helpers.js:5-10 | exactly the known counters exist afterwards, each holding the stored value or zero |
| Stats.IncrementLeavesOthers | background/helpers.js:11-16 | incrementing one counter leaves every other counter's value as it was |
| Stats.IncrementMonotone | background/helpers.js:11-16 | no counter ever decreases under increment |
| Cache.Get | background/helpers.js:43-55 | a hit happens iff the URL is cached and its age is strictly below the TTL, and the hit is the stored entry; a miss on a cached URL evicts that key and no other; surviving entries are unchanged |
| Cache.Set | background/helpers.js:56-63 | the URL maps to the decision stamped with `now`, the key set grows by that URL only, and every other entry is unchanged |
| Cache.Clear | background/helpers.js:64-67 | the cache is empty afterwards |
| Cache.Unexpired | background/helpers.js:78-84 | an entry survives the expiry phase iff its age is not greater than the TTL, with its value unchanged |
| Cache.Cleanup | background/helpers.js:68-101 | no key is added and retained values are unchanged; no retained entry is older than the TTL; at most MAX_ENTRIES remain; without trimming, exactly the unexpired entries remain; with trimming, exactly TRIMMED_SIZE remain, each written no earlier than any discarded unexpired entry |
| Cache.KeepNewest | background/helpers.js:86-95 | keeps exactly `n` entries, unchanged, each written no earlier than every dropped one |
| Cache.Newest | background/helpers.js:88-89 | returns a key whose entry was written last among the candidates |
| Cache.GetAfterSet | background/helpers.js:43-63 | a write is readable at once, with the write time as its timestamp, and that read evicts nothing |
| Cache.SetLeavesOtherKeys | background/helpers.js:56-63 | a write does not change what any other URL reads |
| Cache.SetExpiresAfterTtl | background/helpers.js:43-55 | a write is served strictly before the TTL has elapsed and evicted from then on |
| Cache.TtlBoundaryQuirk | background/helpers.js:43-84 | an entry aged exactly the TTL is refused and evicted by `get` but survives the expiry phase of `cleanup` |
| Cache.GetAfterClear | background/helpers.js:64-67 | after `clear` every read misses |
| Normalize.CleanEntry | background/helpers.js:108 | the cleaned entry is the lower-cased piece of the entry left after cutting the white space at both ends (no white space at either end of the piece, only white space outside it); an entry that is already lower case and trimmed is kept as it is, and cleaning again changes nothing |
| Normalize.SanitizeDomainList | background/helpers.js:105-111 | the output has no duplicates and its entries are non-empty, lower case and trimmed; a string is in the output iff it is the non-empty cleaned form of some input entry |
| Normalize.SanitizeIdempotent | background/helpers.js:105-111 | sanitizing a sanitized list returns it unchanged |
| Normalize.StripTrailingSlashes | background/helpers.js:117 | the result is a prefix of the path that does not end in `/`, and everything cut off is `/` |
| Normalize.PathSignature | background/helpers.js:117-118 | the signature path is `/` exactly when the path consists only of slashes (or is empty); otherwise it is the path with its trailing slashes cut |
| Normalize.QueryGet | background/helpers.js:123-124 | a value is found iff the key occurs in the query, and it is the value of the first pair with that key |
| Normalize.FirstQueryMatch | background/helpers.js:120-129 | the chosen key is a recognised key whose trimmed, lower-cased value is non-empty, and no earlier recognised key has such a value |
| Normalize.NormalizeUrlForAllowList | background/helpers.js:113-135 | the signature is missing iff the URL does not parse, and a signature always contains the `\|` separator |
| Normalize.SignatureSplits | background/helpers.js:126-131 | a signature built from `\|`-free parts splits back into exactly those parts |
| Normalize.SignatureRoundTrip | background/helpers.js:113-135 | splitting a page's signature recovers the lower-cased host, the normalized path and the chosen query pair |
| Normalize.SignatureInsensitive | background/helpers.js:113-135 | URLs that differ only in host case, trailing slashes, or case and surrounding white space of the recognised query values get the same signature |
| Normalize.Migrate | background/helpers.js:139-148 | an empty entry contributes nothing; an entry containing `\|` is kept as it is; any other entry contributes its normalized signature when that exists and is non-empty, and nothing otherwise |
| Normalize.MigrateAll | background/helpers.js:139-149 | a signature is collected iff some stored entry contributes it |
| Normalize.LoadAllowedUrlSignatures | background/helpers.js:137-151 | the output has no duplicates and no empty entries; `\|`-entries pass through verbatim; a string is in the output iff some stored entry migrates to it |
| Normalize.LoadIdempotent | background/helpers.js:137-151 | loading an already loaded list returns it unchanged |
| Pipeline.Hostname | background.js:825-831 | a host is available iff the URL parses to a non-empty host name |
| Pipeline.EmptyBlockEntryBlocksAll | background.js:819-823 | an empty block-list entry blocks every host |
| Pipeline.EmptyAllowEntriesIgnored | background.js:150-154 | empty allow-list entries never decide anything: dropping them gives the same answer |
| Pipeline.GetAllowDecision | background.js:833-846 | a user-allowed host gives source `allowlist`; otherwise an answer exists iff the page's signature is in the allowed list, with source `allowurl` |
| Pipeline.ShouldSkipAIAnalysis | background.js:690-707 | an unparsable URL is skipped; otherwise the skip holds iff the host equals one of the four built-in domains or ends in `.` plus one of them, or is user-allowed |
| Pipeline.Classify | background.js:450-478 | a re-thrown classifier error yields `ai-error` with the message, without warning, and leaves the engine unchanged; an answer yields source `ai`, the verdict's warning and distraction flag, one more `aiAnalysisCount`, and the verdict cached under the URL at `now` |
| Pipeline.AfterCache | background.js:390-478 | only the sources whitelist, no-api-key, no-task, no-html, ai and ai-error occur; whitelist fires iff the skip test holds; the classifier runs iff the page is not skipped and API key, task and page content are all present; otherwise a missing API key replies no-api-key, then a missing task replies no-task with the missing-task label, then missing page content replies no-html, the first and last carrying the configured task; only `ai` can warn or change the engine, and an `ai` reply comes from an answer whose verdict it carries and caches at `now` |
| Pipeline.Triage | background.js:349-388 | a blocked host warns with `isBlocked`, the task or its fallback, and no state change; otherwise an allow match answers without warning and without state change; otherwise a fresh cache entry is returned marked cached, and only a miss reaches the later gates |
| Pipeline.HandleUrlCheck | background.js:322-489 | when disabled, replies `disabled` with `extensionEnabled:false`; when the URL has no host, replies `invalid-url`; neither changes anything; otherwise `pagesAnalyzed` is incremented once before the ordered checks; the configuration is never changed |
| Pipeline.PagesCountedOnce | background.js:324-345 | the reply is `disabled` or `invalid-url` iff the engine is off or the URL has no host, and then nothing changes; every other check raises `pagesAnalyzed` by exactly one |
| Pipeline.TriageKeepsPageCount | background.js:349-478 | no step after the page count touches `pagesAnalyzed` or replies `disabled` or `invalid-url` |
| Pipeline.AfterCacheKeepsPageCount | background.js:390-478 | the gates after the cache and the classifier step leave `pagesAnalyzed` alone |
| Pipeline.BlockListDominates | background.js:349-361 | a host matched by the block list is warned about with source `blocklist`, whatever the allow lists, signatures and cache say, and the cache is untouched |
| Pipeline.WarningsHaveThreeSources | background.js:349-478 | only the block list, a cached decision or a fresh classifier verdict can produce a warning |
| Pipeline.TriageWarnings | background.js:349-478 | after the page count, only the block list, a cached decision or a fresh classifier verdict can warn |
| Pipeline.ClassifierNeedsKeyTaskAndHtml | background.js:405-451 | the classifier is consulted only when API key, task and page content are present and the page is neither blocked, allowed, cached nor skipped |
| Pipeline.TriageClassifierGate | background.js:349-451 | after the page count, an `ai` or `ai-error` reply means API key, task and page content are present and the page was neither blocked, allowed, cached nor skipped |
| Pipeline.AiReplyFacts | background.js:450-466 | an `ai` reply comes from an answered analysis and carries that verdict's warning |
| Pipeline.TriageAiReply | background.js:349-466 | an `ai` reply after the page count means the page passed the block, allow and cache checks with a miss, carries the verdict's warning, and the verdict is cached under the URL at `now` |
| Pipeline.AiWarningIsDistraction | background.js:450-466 | with the classifier of `analyzePageWithAI` behind it, an `ai` reply warns exactly when the page was judged a distraction |
| Pipeline.CheckLeavesOtherUrls | background.js:377-457 | a check leaves every other URL's cached decision as it was |
| Pipeline.TriageLeavesOtherUrls | background.js:349-457 | the checks after the page count leave every other URL's cached decision as it was |
| Pipeline.AfterCacheLeavesOtherUrls | background.js:390-457 | the gates after the cache, including the classifier's cache write, leave every other URL's cached decision as it was |
| Pipeline.WhitelistMeansBuiltin | background.js:390-401 | the `whitelist` reply only happens for the built-in productivity domains |
| Pipeline.TriageWhitelist | background.js:363-401 | a `whitelist` reply means no allow match was found and the skip test held |
| Pipeline.SecondCheckHitsCache | background.js:377-466 | after a classifier verdict, the same page checked again within the TTL is answered from the cache with the same warning and the original write time, without a second classifier call |
| Pipeline.TriageCacheHit | background.js:377-388 | a hit for a page that is neither blocked nor allowed is answered from the entry: source `cache`, marked cached, with the stored warning and write time |
| Pipeline.HandleTaskUpdated | background.js:813-817 | the task is replaced, the cache is emptied and the stats are kept |
| Pipeline.NoCacheAfterTaskUpdate | background.js:813-817 | right after a task change, no check is answered from the cache |
| Pipeline.TriageCacheSource | background.js:349-388 | a `cache` reply happens only when the cache holds a live entry for the URL |
| Pipeline.UpdateBlockList | background.js:220-224 | the block list is replaced as sent; the cache and stats are kept |
| Pipeline.UpdateAllowList | background.js:131-139 | the allow list becomes the sanitized, duplicate-free list; the cache and stats are kept |
| Pipeline.UpdateAllowedUrls | background.js:311-315 | the signatures become the loaded, duplicate-free list; the cache and stats are kept |
| Pipeline.AddHostnameToAllowList | background.js:141-148 | a blank host changes nothing; otherwise the cleaned host ends up in the allow list, appended once if it was absent, and nothing else changes |
| Pipeline.AddHostnameKeepsDistinct | background.js:141-148 | adding a host keeps a duplicate-free allow list duplicate-free |
| Pipeline.HandleAllowCurrentUrl | background.js:725-747 | an invalid URL fails with `Invalid URL` and changes nothing; otherwise the signature is added at most once and the URL's cache entry becomes an allow decision with source `allowurl` at `now`; stats and the rest of the configuration are kept |
| Pipeline.AllowCurrentUrlKeepsDistinct | background.js:732-735 | allowing a page keeps the signature list duplicate-free |
| Pipeline.AllowedPageStaysAllowed | background.js:725-747 | once a page is allowed, every later check of it is allowed by the allow list or its signature, unless its host is blocked |
| Classifier.FencedVerdictSound | background.js:680-684 | a verdict the fenced-block scanner captures comes from a real match of the fenced pattern |
| Classifier.FencedVerdictComplete | background.js:680-684 | if the fenced pattern matches anywhere, the scanner captures a verdict |
| Classifier.Classify | background.js:664-687 | an unrecognised reply is never a distraction |
| Classifier.ParseFallback | background.js:661-688 | an invalid fallback parse never reports a distraction |
| Classifier.ParseFallbackRecognises | background.js:661-688 | a reply is understood iff its trimmed, lower-cased text holds a sentinel, is exactly one of the bare words, or matches the fenced pattern |
| Classifier.ClassifyRecognises | background.js:664-687 | the cascade understands a text iff it holds a sentinel, is exactly one of the bare words, or matches the fenced pattern |
| Classifier.ClassifyPrecedence | background.js:664-687 | in the cascade the true sentinel beats the false sentinel, sentinels beat the bare words, and those beat the fenced block, whose verdict the pattern captures |
| Classifier.ParseFallbackPrecedence | background.js:664-687 | the true sentinel beats the false sentinel, sentinels beat the bare words `true/yes/1` and `false/no/0`, and those beat the fenced block, whose verdict is the one the pattern captures |
| Classifier.ParseFallbackIgnoresCase | background.js:662 | the fallback parse does not depend on letter case |
| Classifier.ParseFallbackIgnoresPadding | background.js:662 | the fallback parse does not depend on surrounding white space |
| Classifier.AttemptVerdict | background.js:597-635 | a transport error yields no verdict; a JSON boolean is taken as the verdict, with a confidence; otherwise the verdict exists iff the fallback parse is valid; in every verdict the warning equals the distraction flag |
| Classifier.FirstUsable | background.js:496-649 | finds the first attempt that yields a verdict, with none before it, or reports that no attempt does |
| Classifier.RunFrom | background.js:496-657 | over what each attempt yields, from attempt `k` on: the first attempt with a verdict answers, counting the attempts used; if none does, a transport error on the last attempt is re-thrown and an unclear last reply gives the default allow after all attempts |
| Classifier.AnalyzePage | background.js:492-658 | at most three attempts are made; the first verdict wins, with warning equal to the distraction flag; with no verdict, a transport error on the third attempt is re-thrown and an unclear third reply gives the default allow |
| Classifier.FirstJsonAnswerWins | background.js:598-616 | a JSON boolean on the first attempt is taken at once, after one attempt |
| Classifier.ErrorsEverywhereRaise | background.js:650-654 | three transport errors re-throw the last one |
| Classifier.PromptExcerpt | background.js:500-537 | the prompt embeds a prefix of the page text of at most 5000 characters: the whole text when it is shorter, exactly 5000 characters otherwise |
| AiHelper.AiReasoning | ai-helper.js:95-102 | replies of at most 20 characters, and single-line replies, keep the default reasoning; otherwise the reasoning is the default or a non-empty trimmed text |
| AiHelper.AiReasoningAfterFirstLine | ai-helper.js:95-102 | for a long multi-line reply, the reasoning is the text after the first line break with the other line breaks read as spaces, trimmed, or the default when that is blank |
| AiHelper.ParseAIResponse | ai-helper.js:88-111 | the verdict is a distraction iff the trimmed, upper-cased reply contains `DISTRACTION`; the warning equals the verdict and the reason is determined by the verdict alone |
| AiHelper.VerdictIgnoresCase | ai-helper.js:89-92 | the verdict does not depend on the reply's letter case |
| AiHelper.ShouldSkipAIAnalysis | ai-helper.js:116-135 | an unparsable URL is skipped; otherwise the skip holds iff the host contains one of the seven listed domains |
| AiHelper.GoogleSubdomains | ai-helper.js:121-131 | a host containing `drive.google.com` or `docs.google.com` also contains `google.com` |
| AiHelper.SkipDomainsRedundant | ai-helper.js:121-131 | the two Google sub-domains in the list are redundant: five entries decide the same |
| AiHelper.BuildAnalysisPrompt | ai-helper.js:59-83 | the preview is the whole text preview when it has at most 300 characters, exactly its first 300 characters when longer, and `N/A` when absent or empty; a missing or empty description reads `N/A`; goal, URL and title pass through |
| Responses.ChooseTask | background/responses.js:18 | the override if present, else the configured task if present, else the fallback task |
| Responses.BuildResponse | background/responses.js:6-22 | unspecified fields default to no warning, reason `No reason provided` and source `unknown`; `cached` is false unless the extras override it; the extras' flags pass through |
| Responses.OptionsFor | background/responses.js:24-62 | only `strictBlock` asks for a warning and for `isBlocked`; only `noTask` overrides the task, with the missing-task label; `disabled` sets `extensionEnabled:false`; `aiError` passes its error; no factory overrides `cached` |
| Responses.Make | background/responses.js:24-62 | only `strictBlock` warns, and only it carries `isBlocked`; `noTask` carries the missing-task label and every other response the configured or fallback task; `disabled` carries `extensionEnabled:false`; `aiError` carries its error; none is cached |
| Responses.KindOfMake | background/responses.js:24-62 | every factory response can be traced back to its factory by its source |
| Responses.BuildDefaults | background/responses.js:6-22 | with nothing specified, the builder yields the documented defaults |
| Popup.StripScheme | popup.js:773 | a leading `https://` or `http://` is removed; an entry starting with neither is unchanged |
| Popup.StripWww | popup.js:774 | one leading `www.` is removed; an entry without it is unchanged |
| Popup.StripPath | popup.js:775 | the entry is cut at the first slash that starts the path pattern `/.*$` (a slash followed only by non-line-terminators), and kept whole when there is none |
| Popup.RemoveSpaces | popup.js:776 | the result keeps only non-white-space characters of the entry, and an entry without white space is unchanged |
| Popup.RemoveSpacesSingle | popup.js:776 | a white-space character is removed and any other character is kept |
| Popup.RemoveSpacesConcat | popup.js:776 | removal works piece by piece, so the non-white-space characters stay in their order |
| Popup.Candidate | popup.js:773-776 | the candidate holds only non-white-space characters taken from the line |
| Popup.CandidateRecoversHost | popup.js:773-776 | a line made of an optional `http://` or `https://`, an optional `www.`, a host of domain characters and a path yields exactly the host |
| Popup.KeepDomains | popup.js:779 | a candidate is kept iff it matches the domain pattern |
| Popup.HostCandidates | popup.js:769-776 | every non-blank item yields its candidate, nothing else is produced, and all candidates are lower case |
| Popup.ParseDomainList | popup.js:763-781 | empty input gives no domains; the output has no duplicates, and every entry is lower case and matches `^[a-z0-9.-]+\.[a-z]{2,}$`; a domain is in the output iff some non-blank item yields it as a candidate that matches the pattern |
| Popup.DomainOkChars | popup.js:768 | an accepted domain holds only letters, digits, dots and hyphens, so it has no scheme, path or white space |
| Popup.DoubledWwwKeepsOne | popup.js:774 | only one `www.` prefix is stripped |
| Popup.DomainOkWithWww | popup.js:768-774 | a `www.`-prefixed form of an accepted domain is accepted too |
| Popup.FormatAllowedSignature | popup.js:783-793 | a string without `\|` is shown unchanged |
| Popup.FormatOfParts | popup.js:783-793 | `host\|path` renders as host followed by path; `(key=value)` is added only when both key and value are non-empty |
| Popup.FormatNormalizedSignature | popup.js:783-793 | a page's signature renders as its host and path, followed by the chosen query pair when there is one |
| Popup.Pad2 | popup.js:815 | two digits whose value is the number |
| Popup.FormatDuration | popup.js:808-816 | a missing, zero or negative duration reads `0:00`; every result is `m:ss` with two-digit seconds below 60, and m*60+ss is the number of whole seconds; the minutes have no leading zero unless they are 0 |
| Popup.ReplaceChar | popup.js:755-760 | the replaced character no longer occurs unless the replacement contains it, and every character of the result comes from the input or the replacement |
| Popup.EscapeHtml | popup.js:754-761 | the output contains no raw `<`, `>`, `"` or `'` |
| Popup.EscapeHtmlIsPerChar | popup.js:754-761 | the chain of replacements equals escaping each character on its own |
| Popup.EscapeHtmlRoundTrip | popup.js:754-761 | decoding the five entities gives the original text back |
| Popup.NormalizeFlightData | popup.js:795-806 | no flight maps to none; the limit defaults to 5 when missing or zero; a missing status comes from `active`; a missing `active` becomes `status == inflight`; other fields are kept |
| Popup.NormalizeSnapshot | popup.js:795-806 | normalizing the snapshot of a valid flight state is active exactly while in flight, with status `inflight` or `idle` and limit 5 |
| Popup.HasRequiredConfig | popup.js:833-835 | true iff both the API key and the task are non-empty |
| Popup.HasRequiredConfigMatchesGates | popup.js:833-835 | the popup's test agrees with the background's key and task gates (background.js:405-428): for a page the built-in skip does not answer, it holds iff the check replies neither no-api-key nor no-task |
| Popup.ComputeFlightStreak | popup.js:345-355 | the streak is the length of the longest prefix of `perfect` outcomes, at most the history length; a missing history gives 0 |
| Popup.StreakOfHistory | popup.js:345-355 | over a real flight history, the streak counts the leading perfect landings |
| Popup.WithoutGoal | popup.js:655 | an entry survives iff it differs from the goal up to case; nothing is added |
| Popup.WithoutGoalSingle | popup.js:655 | a single entry is kept iff it differs from the goal up to case |
| Popup.WithoutGoalConcat | popup.js:655 | filtering distributes over concatenation, so the survivors keep their order and multiplicity |
| Popup.PushGoal | popup.js:655-656 | the goal comes first, followed by the surviving entries in order, and the length is capped at five |
| Popup.RegisterRecentGoal | popup.js:651-659 | a blank goal changes nothing; otherwise the trimmed goal is pushed |
| Popup.PushGoalEntries | popup.js:655-656 | after the first entry, no entry equals the goal up to case, and every entry came from the old list |
| Popup.PushGoalIdempotent | popup.js:655-656 | pushing the same goal twice is the same as pushing it once |
| Popup.RegisterRecentGoalIdempotent | popup.js:651-659 | registering the same goal twice is the same as registering it once |
| Popup.GetOutcomeLabel | popup.js:357-368 | perfect, delayed and fail get their own labels and everything else reads `Completed` |
| Popup.OutcomeLabelsDistinct | popup.js:357-368 | every recorded outcome has its own label, never the fallback |

## Left out

- Storage and persistence. Every `storage.set`, `persist` and `persistAll` is a
  no-op, and `loadConfiguration` and `loadFrom` are left out: the in-memory state
  is the model's state.
- The message dispatch switch (background.js:211-319) is left out. Only the
  handlers it calls are modelled. The stats-only handlers `handleWarningShown`,
  `handleUserWentBack` and `handleUserContinued` (background.js:710-723) are one
  `Stats.Increment` each and are not restated. Neither are the `setExtensionEnabled`
  and `apiKeyUpdated` branches, which reload or set one field.
- Tab listeners, `setInterval` timers (including when cleanup runs) and the 1000 ms
  sleep between retries are timing and I/O.
- Network calls. The `fetch` to the classifier (background.js:547-593,
  ai-helper.js:16-43) is replaced by `Classifier.Script`. `ok`-status handling
  and JSON decoding are folded into each attempt's outcome.
- URL parsing. `new URL` and `URLSearchParams` are abstracted to
  `Option<ParsedUrl>`. The decoded query pairs are given in order.
- Title and meta-description extraction by regular expression
  (background.js:505-509), and the prompt's fixed wording. Only the 30000/5000
  character truncation of the page text is modelled.
- `confidence` is an opaque `real`, and `x || 0` on it is not given NaN
  semantics.
- The outer `catch` of `handleUrlCheck` (source `error`, background.js:480-488).
  No step of the model can throw, so the branch is unreachable.
- Popup.Candidate: its own contract states only which characters the candidate can
  hold. Its value follows from the contracts of the four rewrites it chains
  (StripScheme, StripWww, StripPath, RemoveSpaces), and
  `Popup.CandidateRecoversHost` states it for the usual shape of a typed URL.
- Classifier.PromptExcerpt: the 30000 and 5000 character limits are counted in Unicode
  scalar values. JavaScript's `substring` counts UTF-16 code units, so on text
  with characters outside the Basic Multilingual Plane (emoji, for example) the
  source keeps fewer characters and can split a surrogate pair.
- AiHelper.AiReasoning: the `length > 20` threshold is counted in Unicode scalar values,
  not UTF-16 code units, for the same reason.
- AiHelper.BuildAnalysisPrompt: the 300 character preview limit is counted in Unicode
  scalar values, not UTF-16 code units, for the same reason.
- Case mapping covers ASCII letters only. JavaScript's `toLowerCase` and
  `toUpperCase` also map non-ASCII letters. This affects `Normalize.CleanEntry`,
  signatures, the parsers and recent goals.
- Cache.Cleanup: among entries with equal write times, the source's stable sort
  keeps the earlier-inserted key. The model leaves that choice open and proves
  only that no dropped entry was written later than a kept one.
- Stats.InitFrom builds the counter map afresh. The source writes the known keys
  into the existing object, which would keep any other property it held. Under
  the model, no other key is ever created.
- Flight ids are the start time as a number, not the string `flight-<time>`. A
  flight's missing `turbulence` or `events` (`|| 0`, `|| []`) is not modelled:
  flights are always created with both.
- Cache entries carry the write time in `Cache.Entry`. The decision's own
  `timestamp` field is not duplicated.
- Concurrency. Interleavings between asynchronous handlers, and lost updates
  between them, are out of scope. Each handler is one atomic step.
- content.js, debug-pageinfo.js, api-config.js and the rendering and event
  methods of the popup controller are DOM, UI or constant strings.
