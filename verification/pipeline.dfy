/** The decision engine of background.js: `handleUrlCheck` and the handlers that
    change its configuration. The engine state is the in-memory configuration,
    the URL-decision cache and the statistics; each handler is one atomic step
    returning the new state. Storage writes are no-ops, time is `now`, and the
    classifier call is represented by its outcome `ai`: what `analyzePageWithAI`
    resolves with or throws for this page (`Classifier.AnalyzePage` of the
    attempts). The outcome is only looked at when the checks reach the
    classifier. */
module Pipeline {
  import opened Optional
  import opened Strings
  import C = Constants
  import Cache
  import Stats
  import N = Normalize
  import Cl = Classifier
  import opened Responses

  datatype Config = Config(
    apiKey: Option<string>,
    currentTask: Option<string>,
    blockList: seq<string>,
    allowList: seq<string>,
    allowedUrls: seq<string>,
    enabled: bool)

  /** The decision object kept in the cache: a classifier verdict, or the entry
      written when the user allows a page (which also records its source). */
  datatype Decision = Decision(
    shouldWarn: bool,
    isDistraction: bool,
    reason: string,
    source: Option<string>,
    confidence: Option<real>,
    rawAiResponse: Option<string>)

  datatype Engine = Engine(config: Config, cache: Cache.Cache<Decision>, stats: Stats.Stats)

  /** The page under check: the raw URL (the cache key) and its parse. */
  datatype Page = Page(url: string, parsed: Option<N.ParsedUrl>)

  /** JavaScript truthiness of an optional string. */
  predicate Truthy(s: Option<string>) {
    s.Some? && s.value != ""
  }

  /** `getHostname(url)` as `handleUrlCheck` uses it: a parse failure and an empty
      host name both count as no host. */
  function Hostname(p: Page): (h: Option<string>)
    ensures h.Some? <==> p.parsed.Some? && p.parsed.value.host != ""
    ensures h.Some? ==> h.value == p.parsed.value.host
  {
    match p.parsed
    case Some(u) => if u.host != "" then Some(u.host) else None
    case None => None
  }

  // ---------------------------------------------------------------- list tests

  /** `isStrictlyBlocked(hostname)`: some entry is contained in the host name or
      contains it. There is no guard against empty entries. */
  predicate IsStrictlyBlocked(blockList: seq<string>, host: string) {
    exists i :: 0 <= i < |blockList| && (Contains(host, blockList[i]) || Contains(blockList[i], host))
  }

  /** `isUserAllowed(hostname)`: as above, but empty entries never match. */
  predicate IsUserAllowed(allowList: seq<string>, host: string) {
    exists i :: 0 <= i < |allowList| && allowList[i] != ""
      && (Contains(host, allowList[i]) || Contains(allowList[i], host))
  }

  /** An empty block-list entry blocks every host. */
  lemma EmptyBlockEntryBlocksAll(blockList: seq<string>, host: string)
    requires "" in blockList
    ensures IsStrictlyBlocked(blockList, host)
  {
    var i :| 0 <= i < |blockList| && blockList[i] == "";
    ContainsEmpty(host);
  }

  /** Empty allow-list entries change nothing: dropping them decides the same. */
  lemma EmptyAllowEntriesIgnored(allowList: seq<string>, host: string)
    ensures IsUserAllowed(allowList, host) <==> IsUserAllowed(DropEmpty(allowList), host)
  {
    var d := DropEmpty(allowList);
    if IsUserAllowed(allowList, host) {
      var i :| 0 <= i < |allowList| && allowList[i] != ""
        && (Contains(host, allowList[i]) || Contains(allowList[i], host));
      assert allowList[i] in d;
    }
    if IsUserAllowed(d, host) {
      var i :| 0 <= i < |d| && d[i] != "" && (Contains(host, d[i]) || Contains(d[i], host));
      assert d[i] in allowList;
    }
  }

  const ALLOWLIST_SOURCE := "allowlist"
  const ALLOWURL_SOURCE := "allowurl"
  const ALLOWLIST_REASON := "This site is in your allow list"
  const ALLOWURL_REASON := "You allowed this exact page/query"

  datatype AllowMatch = AllowMatch(source: string, reason: string)

  /** `getAllowDecision(hostname, url)`: the host allow list first, then the exact
      page signature. */
  function GetAllowDecision(cfg: Config, host: string, p: Page): (r: Option<AllowMatch>)
    ensures IsUserAllowed(cfg.allowList, host) ==> r == Some(AllowMatch(ALLOWLIST_SOURCE, ALLOWLIST_REASON))
    ensures !IsUserAllowed(cfg.allowList, host) ==>
      (r.Some? <==> N.NormalizeUrlForAllowList(p.parsed).Some? && N.NormalizeUrlForAllowList(p.parsed).value in cfg.allowedUrls)
    ensures !IsUserAllowed(cfg.allowList, host) && r.Some? ==> r.value == AllowMatch(ALLOWURL_SOURCE, ALLOWURL_REASON)
  {
    if IsUserAllowed(cfg.allowList, host) then Some(AllowMatch(ALLOWLIST_SOURCE, ALLOWLIST_REASON))
    else match N.NormalizeUrlForAllowList(p.parsed)
      case Some(sig) => if sig != "" && sig in cfg.allowedUrls then Some(AllowMatch(ALLOWURL_SOURCE, ALLOWURL_REASON)) else None
      case None => None
  }

  /** The built-in part of the background skip test: the host is one of the
      productivity domains or a sub-domain of one. */
  predicate BuiltinAllowed(host: string) {
    exists i :: 0 <= i < |C.PRODUCTIVITY_ALLOWLIST| &&
      (host == C.PRODUCTIVITY_ALLOWLIST[i] || EndsWith(host, "." + C.PRODUCTIVITY_ALLOWLIST[i]))
  }

  /** `shouldSkipAIAnalysis(url)` of background.js: true for an unparsable URL,
      otherwise when the host is built-in allowed or user-allowed. */
  function ShouldSkipAIAnalysis(cfg: Config, parsed: Option<N.ParsedUrl>): (r: bool)
    ensures parsed.None? ==> r
    ensures parsed.Some? ==> (r <==> BuiltinAllowed(parsed.value.host) || IsUserAllowed(cfg.allowList, parsed.value.host))
  {
    match parsed
    case None => true
    case Some(u) => BuiltinAllowed(u.host) || IsUserAllowed(cfg.allowList, u.host)
  }

  // ---------------------------------------------------------------- responses

  const PAGES_ANALYZED := "pagesAnalyzed"
  const AI_ANALYSIS_COUNT := "aiAnalysisCount"

  function Plain(shouldWarn: bool, reason: string, source: string, task: Option<string>, cached: Option<bool>): Response {
    Response(shouldWarn, reason, source, task, cached, None, None, None, None, None, None, None, None)
  }

  /** `config.currentTask || 'Stay focused'` */
  function TaskOrFallback(cfg: Config): string {
    if Truthy(cfg.currentTask) then cfg.currentTask.value else C.FALLBACK_TASK
  }

  /** The reply for a cache hit: the stored decision spread, marked cached, with
      the current task and source `cache`. */
  function FromCache(cfg: Config, entry: Cache.Entry<Decision>): Response {
    var d := entry.value;
    Response(d.shouldWarn, d.reason, "cache", cfg.currentTask, Some(true), Some(d.isDistraction),
             None, None, None, None, d.confidence, d.rawAiResponse, Some(entry.timestamp))
  }

  function DecisionOf(v: Cl.Verdict): Decision {
    Decision(v.shouldWarn, v.isDistraction, v.reason, None, v.confidence, v.rawAiResponse)
  }

  // ---------------------------------------------------------------- handleUrlCheck

  /** The classifier step: on an answer the count of analyses goes up and the
      verdict is cached under the URL; a raised error is reported and changes
      nothing. */
  function Classify(e: Engine, p: Page, ai: Cl.Analysis, now: int): (out: (Response, Engine))
    ensures out.1.config == e.config
    ensures ai.Raised? ==>
      && out.0 == Plain(false, "AI analysis failed - allowing access", "ai-error", e.config.currentTask, Some(false))
                    .(error := Some(ai.message))
      && out.1 == e
    ensures ai.Answered? ==>
      && out.0.source == "ai" && out.0.cached == Some(false)
      && out.0.shouldWarn == ai.verdict.shouldWarn
      && out.0.isDistraction == Some(ai.verdict.isDistraction)
      && out.0.timestamp == Some(now)
      && out.1.stats == Stats.Increment(e.stats, AI_ANALYSIS_COUNT)
      && out.1.cache == Cache.Set(e.cache, p.url, DecisionOf(ai.verdict), now)
  {
    match ai
    case Raised(m) =>
      (Plain(false, "AI analysis failed - allowing access", "ai-error", e.config.currentTask, Some(false)).(error := Some(m)), e)
    case Answered(v, _) =>
      var r := Response(v.shouldWarn, v.reason, "ai", e.config.currentTask, Some(false), Some(v.isDistraction),
                        None, None, None, None, v.confidence, v.rawAiResponse, Some(now));
      (r, e.(stats := Stats.Increment(e.stats, AI_ANALYSIS_COUNT),
             cache := Cache.Set(e.cache, p.url, DecisionOf(v), now)))
  }

  /** The gates after the cache: skip list, API key, task, page content, then the
      classifier. */
  function AfterCache(e: Engine, p: Page, html: Option<string>, ai: Cl.Analysis, now: int): (out: (Response, Engine))
    ensures out.1.config == e.config
    ensures out.0.source in {"whitelist", "no-api-key", "no-task", "no-html", "ai", "ai-error"}
    ensures out.0.source == "whitelist" <==> ShouldSkipAIAnalysis(e.config, p.parsed)
    ensures out.0.source in {"ai", "ai-error"} <==>
      !ShouldSkipAIAnalysis(e.config, p.parsed) && Truthy(e.config.apiKey) && Truthy(e.config.currentTask) && Truthy(html)
    ensures !ShouldSkipAIAnalysis(e.config, p.parsed) && !Truthy(e.config.apiKey) ==>
      out.0.source == "no-api-key" && out.0.currentTask == e.config.currentTask
    ensures !ShouldSkipAIAnalysis(e.config, p.parsed) && Truthy(e.config.apiKey) && !Truthy(e.config.currentTask) ==>
      out.0.source == "no-task" && out.0.currentTask == Some(C.MISSING_TASK)
    ensures !ShouldSkipAIAnalysis(e.config, p.parsed) && Truthy(e.config.apiKey) && Truthy(e.config.currentTask) && !Truthy(html) ==>
      out.0.source == "no-html" && out.0.currentTask == e.config.currentTask
    ensures out.0.source == "no-task" ==> out.0.currentTask == Some(C.MISSING_TASK)
    ensures out.0.shouldWarn ==> out.0.source == "ai"
    ensures out.0.source != "ai" ==> out.1 == e
    ensures out.0.source == "ai" ==>
      && ai.Answered?
      && out.0.shouldWarn == ai.verdict.shouldWarn
      && out.0.timestamp == Some(now)
      && out.1.stats == Stats.Increment(e.stats, AI_ANALYSIS_COUNT)
      && out.1.cache == Cache.Set(e.cache, p.url, DecisionOf(ai.verdict), now)
  {
    if ShouldSkipAIAnalysis(e.config, p.parsed) then
      (Plain(false, "Common productivity site - allowed", "whitelist", e.config.currentTask, Some(false)), e)
    else if !Truthy(e.config.apiKey) then
      (Plain(false, "API key not configured - cannot analyze", "no-api-key", e.config.currentTask, Some(false)), e)
    else if !Truthy(e.config.currentTask) then
      (Plain(false, "No focus goal set - cannot analyze", "no-task", Some(C.MISSING_TASK), Some(false)), e)
    else if !Truthy(html) then
      (Plain(false, "Could not get page content", "no-html", e.config.currentTask, Some(false)), e)
    else
      Classify(e, p, ai, now)
  }

  /** Everything after the page has been counted: block list, allow lists, cache,
      then the remaining gates. */
  function Triage(e: Engine, p: Page, host: string, html: Option<string>, ai: Cl.Analysis, now: int): (out: (Response, Engine))
    ensures out.1.config == e.config
    ensures IsStrictlyBlocked(e.config.blockList, host) ==>
      out.0 == Plain(true, "Site is in your strict block list", "blocklist", Some(TaskOrFallback(e.config)), Some(false))
               .(isBlocked := Some(true))
      && out.1 == e
    ensures !IsStrictlyBlocked(e.config.blockList, host) && GetAllowDecision(e.config, host, p).Some? ==>
      && out.0.source == GetAllowDecision(e.config, host, p).value.source
      && out.0.isAllowed == Some(true) && !out.0.shouldWarn
      && out.1 == e
    ensures !IsStrictlyBlocked(e.config.blockList, host) && GetAllowDecision(e.config, host, p).None? ==>
      var look := Cache.Get(e.cache, p.url, now);
      && (look.hit.Some? ==> out.0 == FromCache(e.config, look.hit.value) && out.1 == e)
      && (look.hit.None? ==> out == AfterCache(e.(cache := look.cache), p, html, ai, now))
  {
    if IsStrictlyBlocked(e.config.blockList, host) then
      (Plain(true, "Site is in your strict block list", "blocklist", Some(TaskOrFallback(e.config)), Some(false))
         .(isBlocked := Some(true)), e)
    else match GetAllowDecision(e.config, host, p)
      case Some(m) =>
        (Plain(false, m.reason, m.source, Some(TaskOrFallback(e.config)), Some(false)).(isAllowed := Some(true)), e)
      case None =>
        var look := Cache.Get(e.cache, p.url, now);
        match look.hit
        case Some(entry) => (FromCache(e.config, entry), e.(cache := look.cache))
        case None => AfterCache(e.(cache := look.cache), p, html, ai, now)
  }

  /** `handleUrlCheck(url, html)`: the response sent and the engine after it. */
  function HandleUrlCheck(e: Engine, p: Page, html: Option<string>, ai: Cl.Analysis, now: int): (out: (Response, Engine))
    ensures out.1.config == e.config
    ensures !e.config.enabled ==>
      out.0 == Plain(false, "Focus Guardian is turned off", "disabled", None, None).(extensionEnabled := Some(false))
      && out.1 == e
    ensures e.config.enabled && Hostname(p).None? ==>
      out.0 == Plain(false, "Invalid URL provided", "invalid-url", None, None) && out.1 == e
    ensures e.config.enabled && Hostname(p).Some? ==>
      out == Triage(e.(stats := Stats.Increment(e.stats, PAGES_ANALYZED)), p, Hostname(p).value, html, ai, now)
  {
    if !e.config.enabled then
      (Plain(false, "Focus Guardian is turned off", "disabled", None, None).(extensionEnabled := Some(false)), e)
    else match Hostname(p)
      case None => (Plain(false, "Invalid URL provided", "invalid-url", None, None), e)
      case Some(host) =>
        Triage(e.(stats := Stats.Increment(e.stats, PAGES_ANALYZED)), p, host, html, ai, now)
  }

  // ---------------------------------------------------------------- properties of a check

  /** A page is counted exactly when the engine is on and the URL has a host; the
      disabled and invalid-URL replies change nothing. */
  lemma PagesCountedOnce(e: Engine, p: Page, html: Option<string>, ai: Cl.Analysis, now: int)
    ensures var out := HandleUrlCheck(e, p, html, ai, now);
      && (out.0.source in {"disabled", "invalid-url"} <==> !e.config.enabled || Hostname(p).None?)
      && (out.0.source in {"disabled", "invalid-url"} ==> out.1 == e)
      && (e.config.enabled && Hostname(p).Some? ==>
            Stats.Count(out.1.stats, PAGES_ANALYZED) == Stats.Count(e.stats, PAGES_ANALYZED) + 1)
  {
    var out := HandleUrlCheck(e, p, html, ai, now);
    if e.config.enabled && Hostname(p).Some? {
      var e1 := e.(stats := Stats.Increment(e.stats, PAGES_ANALYZED));
      TriageKeepsPageCount(e1, p, Hostname(p).value, html, ai, now);
    }
  }

  /** Nothing after the first gate touches the page counter. */
  lemma TriageKeepsPageCount(e: Engine, p: Page, host: string, html: Option<string>, ai: Cl.Analysis, now: int)
    ensures var out := Triage(e, p, host, html, ai, now);
      && Stats.Count(out.1.stats, PAGES_ANALYZED) == Stats.Count(e.stats, PAGES_ANALYZED)
      && out.0.source !in {"disabled", "invalid-url"}
  {
    if !IsStrictlyBlocked(e.config.blockList, host) && GetAllowDecision(e.config, host, p).None? {
      var look := Cache.Get(e.cache, p.url, now);
      if look.hit.None? {
        AfterCacheKeepsPageCount(e.(cache := look.cache), p, html, ai, now);
      }
    }
  }

  lemma AfterCacheKeepsPageCount(e: Engine, p: Page, html: Option<string>, ai: Cl.Analysis, now: int)
    ensures var out := AfterCache(e, p, html, ai, now);
      && Stats.Count(out.1.stats, PAGES_ANALYZED) == Stats.Count(e.stats, PAGES_ANALYZED)
      && out.0.source !in {"disabled", "invalid-url"}
  {
    if AfterCache(e, p, html, ai, now).0.source == "ai" {
      Stats.IncrementLeavesOthers(e.stats, AI_ANALYSIS_COUNT, PAGES_ANALYZED);
    }
  }

  /** A blocked host is warned about, whatever the allow lists, the signatures
      or the cache say. */
  lemma BlockListDominates(e: Engine, p: Page, html: Option<string>, ai: Cl.Analysis, now: int)
    requires e.config.enabled && Hostname(p).Some?
    requires IsStrictlyBlocked(e.config.blockList, Hostname(p).value)
    ensures var out := HandleUrlCheck(e, p, html, ai, now);
      && out.0.shouldWarn && out.0.source == "blocklist" && out.0.isBlocked == Some(true)
      && out.1.cache == e.cache
  {
    var e1 := e.(stats := Stats.Increment(e.stats, PAGES_ANALYZED));
    assert HandleUrlCheck(e, p, html, ai, now) == Triage(e1, p, Hostname(p).value, html, ai, now);
  }

  /** Only the block list, a cached decision and a fresh classifier verdict can
      warn. */
  lemma WarningsHaveThreeSources(e: Engine, p: Page, html: Option<string>, ai: Cl.Analysis, now: int)
    ensures var out := HandleUrlCheck(e, p, html, ai, now);
      out.0.shouldWarn ==> out.0.source in {"blocklist", "cache", "ai"}
  {
    if e.config.enabled && Hostname(p).Some? {
      TriageWarnings(e.(stats := Stats.Increment(e.stats, PAGES_ANALYZED)), p, Hostname(p).value, html, ai, now);
    }
  }

  lemma TriageWarnings(e: Engine, p: Page, host: string, html: Option<string>, ai: Cl.Analysis, now: int)
    ensures var out := Triage(e, p, host, html, ai, now);
      out.0.shouldWarn ==> out.0.source in {"blocklist", "cache", "ai"}
  {
    if !IsStrictlyBlocked(e.config.blockList, host) && GetAllowDecision(e.config, host, p).None? {
      var look := Cache.Get(e.cache, p.url, now);
      if look.hit.None? {
        var out := AfterCache(e.(cache := look.cache), p, html, ai, now);
        assert out.0.shouldWarn ==> out.0.source == "ai";
      }
    }
  }

  /** The classifier is consulted only with an API key, a task and page content,
      and only for a page that is neither blocked, allowed, cached nor skipped. */
  lemma ClassifierNeedsKeyTaskAndHtml(e: Engine, p: Page, html: Option<string>, ai: Cl.Analysis, now: int)
    ensures var out := HandleUrlCheck(e, p, html, ai, now);
      out.0.source in {"ai", "ai-error"} ==>
        && e.config.enabled && Hostname(p).Some?
        && Truthy(e.config.apiKey) && Truthy(e.config.currentTask) && Truthy(html)
        && !IsStrictlyBlocked(e.config.blockList, Hostname(p).value)
        && GetAllowDecision(e.config, Hostname(p).value, p).None?
        && Cache.Get(e.cache, p.url, now).hit.None?
        && !ShouldSkipAIAnalysis(e.config, p.parsed)
  {
    if e.config.enabled && Hostname(p).Some? {
      TriageClassifierGate(e.(stats := Stats.Increment(e.stats, PAGES_ANALYZED)), p, Hostname(p).value, html, ai, now);
    }
  }

  lemma TriageClassifierGate(e: Engine, p: Page, host: string, html: Option<string>, ai: Cl.Analysis, now: int)
    ensures var out := Triage(e, p, host, html, ai, now);
      out.0.source in {"ai", "ai-error"} ==>
        && Truthy(e.config.apiKey) && Truthy(e.config.currentTask) && Truthy(html)
        && !IsStrictlyBlocked(e.config.blockList, host)
        && GetAllowDecision(e.config, host, p).None?
        && Cache.Get(e.cache, p.url, now).hit.None?
        && !ShouldSkipAIAnalysis(e.config, p.parsed)
  {
    if !IsStrictlyBlocked(e.config.blockList, host) && GetAllowDecision(e.config, host, p).None? {
      var look := Cache.Get(e.cache, p.url, now);
      if look.hit.None? {
        var out := AfterCache(e.(cache := look.cache), p, html, ai, now);
        assert out.0.source in {"ai", "ai-error"} ==> Truthy(html) && !ShouldSkipAIAnalysis(e.config, p.parsed);
      }
    }
  }

  /** An `ai` reply comes from an answered analysis and carries its warning. */
  lemma AiReplyFacts(e: Engine, p: Page, html: Option<string>, ai: Cl.Analysis, now: int)
    ensures var out := HandleUrlCheck(e, p, html, ai, now);
      out.0.source == "ai" ==> ai.Answered? && out.0.shouldWarn == ai.verdict.shouldWarn
  {
    if e.config.enabled && Hostname(p).Some? {
      TriageAiReply(e.(stats := Stats.Increment(e.stats, PAGES_ANALYZED)), p, Hostname(p).value, html, ai, now);
    }
  }

  /** At the triage level an `ai` reply also says which way the checks went and
      what was cached. */
  lemma TriageAiReply(e: Engine, p: Page, host: string, html: Option<string>, ai: Cl.Analysis, now: int)
    ensures var out := Triage(e, p, host, html, ai, now);
      out.0.source == "ai" ==>
        && ai.Answered? && out.0.shouldWarn == ai.verdict.shouldWarn
        && !IsStrictlyBlocked(e.config.blockList, host)
        && GetAllowDecision(e.config, host, p).None?
        && Cache.Get(e.cache, p.url, now).hit.None?
        && out.1.cache == Cache.Set(Cache.Get(e.cache, p.url, now).cache, p.url, DecisionOf(ai.verdict), now)
  {
    if !IsStrictlyBlocked(e.config.blockList, host) && GetAllowDecision(e.config, host, p).None? {
      var look := Cache.Get(e.cache, p.url, now);
      if look.hit.None? {
        var out := AfterCache(e.(cache := look.cache), p, html, ai, now);
        assert out.0.source == "ai" ==> out.1.cache == Cache.Set(look.cache, p.url, DecisionOf(ai.verdict), now);
      }
    }
  }

  /** With the real classifier behind it, a fresh verdict warns exactly when the
      page is judged a distraction. */
  lemma AiWarningIsDistraction(e: Engine, p: Page, html: Option<string>, attempts: Cl.Script, now: int)
    ensures var out := HandleUrlCheck(e, p, html, Cl.AnalyzePage(attempts), now);
      out.0.source == "ai" ==>
        Cl.AnalyzePage(attempts).Answered? && out.0.shouldWarn == Cl.AnalyzePage(attempts).verdict.isDistraction
  {
    AiReplyFacts(e, p, html, Cl.AnalyzePage(attempts), now);
  }

  /** A check leaves every other URL's cached decision as it was. */
  lemma CheckLeavesOtherUrls(e: Engine, p: Page, html: Option<string>, ai: Cl.Analysis, now: int, other: string)
    requires other != p.url && other in e.cache
    ensures var out := HandleUrlCheck(e, p, html, ai, now);
      other in out.1.cache && out.1.cache[other] == e.cache[other]
  {
    if e.config.enabled && Hostname(p).Some? {
      var e1 := e.(stats := Stats.Increment(e.stats, PAGES_ANALYZED));
      TriageLeavesOtherUrls(e1, p, Hostname(p).value, html, ai, now, other);
    }
  }

  lemma TriageLeavesOtherUrls(e: Engine, p: Page, host: string, html: Option<string>, ai: Cl.Analysis, now: int, other: string)
    requires other != p.url && other in e.cache
    ensures var out := Triage(e, p, host, html, ai, now);
      other in out.1.cache && out.1.cache[other] == e.cache[other]
  {
    if !IsStrictlyBlocked(e.config.blockList, host) && GetAllowDecision(e.config, host, p).None? {
      var look := Cache.Get(e.cache, p.url, now);
      assert other in look.cache && look.cache[other] == e.cache[other];
      if look.hit.None? {
        AfterCacheLeavesOtherUrls(e.(cache := look.cache), p, html, ai, now, other);
      }
    }
  }

  lemma AfterCacheLeavesOtherUrls(e: Engine, p: Page, html: Option<string>, ai: Cl.Analysis, now: int, other: string)
    requires other != p.url && other in e.cache
    ensures var out := AfterCache(e, p, html, ai, now);
      other in out.1.cache && out.1.cache[other] == e.cache[other]
  {
  }

  /** The skip-list reply only ever fires for the built-in productivity domains:
      user-allowed hosts were answered earlier by the allow list. */
  lemma WhitelistMeansBuiltin(e: Engine, p: Page, html: Option<string>, ai: Cl.Analysis, now: int)
    ensures var out := HandleUrlCheck(e, p, html, ai, now);
      out.0.source == "whitelist" ==> BuiltinAllowed(p.parsed.value.host)
  {
    if e.config.enabled && Hostname(p).Some? {
      var host := Hostname(p).value;
      TriageWhitelist(e.(stats := Stats.Increment(e.stats, PAGES_ANALYZED)), p, host, html, ai, now);
      if GetAllowDecision(e.config, host, p).None? {
        assert !IsUserAllowed(e.config.allowList, host);
      }
    }
  }

  lemma TriageWhitelist(e: Engine, p: Page, host: string, html: Option<string>, ai: Cl.Analysis, now: int)
    ensures var out := Triage(e, p, host, html, ai, now);
      out.0.source == "whitelist" ==>
        GetAllowDecision(e.config, host, p).None? && ShouldSkipAIAnalysis(e.config, p.parsed)
  {
    if !IsStrictlyBlocked(e.config.blockList, host) && GetAllowDecision(e.config, host, p).None? {
      var look := Cache.Get(e.cache, p.url, now);
      if look.hit.None? {
        var out := AfterCache(e.(cache := look.cache), p, html, ai, now);
        assert out.0.source == "whitelist" ==> ShouldSkipAIAnalysis(e.config, p.parsed);
      }
    }
  }

  /** A verdict is reused: checking the same page again within the TTL, with the
      same configuration, is answered from the cache with the same warning. */
  lemma SecondCheckHitsCache(e: Engine, p: Page, html: Option<string>, ai: Cl.Analysis, now: int,
                             html2: Option<string>, ai2: Cl.Analysis, later: int)
    requires now <= later && later - now < C.CACHE_TTL_MS
    requires HandleUrlCheck(e, p, html, ai, now).0.source == "ai"
    ensures var e2 := HandleUrlCheck(e, p, html, ai, now).1;
      var second := HandleUrlCheck(e2, p, html2, ai2, later);
      && second.0.source == "cache" && second.0.cached == Some(true)
      && second.0.shouldWarn == HandleUrlCheck(e, p, html, ai, now).0.shouldWarn
      && second.0.timestamp == Some(now)
  {
    var host := Hostname(p).value;
    var e1 := e.(stats := Stats.Increment(e.stats, PAGES_ANALYZED));
    var first := HandleUrlCheck(e, p, html, ai, now);
    assert first == Triage(e1, p, host, html, ai, now);
    TriageAiReply(e1, p, host, html, ai, now);
    var look := Cache.Get(e.cache, p.url, now);
    var d := DecisionOf(ai.verdict);
    Cache.SetExpiresAfterTtl(look.cache, p.url, d, now, later);
    var e2 := first.1;
    assert e2.config == e.config && e2.cache == Cache.Set(look.cache, p.url, d, now);
    var e3 := e2.(stats := Stats.Increment(e2.stats, PAGES_ANALYZED));
    TriageCacheHit(e3, p, host, html2, ai2, later, Cache.Entry(d, now));
  }

  /** A hit after the allow checks is replied from the cache entry. */
  lemma TriageCacheHit(e: Engine, p: Page, host: string, html: Option<string>, ai: Cl.Analysis, now: int,
                       entry: Cache.Entry<Decision>)
    requires !IsStrictlyBlocked(e.config.blockList, host) && GetAllowDecision(e.config, host, p).None?
    requires Cache.Get(e.cache, p.url, now).hit == Some(entry)
    ensures var out := Triage(e, p, host, html, ai, now);
      && out.0.source == "cache" && out.0.cached == Some(true)
      && out.0.shouldWarn == entry.value.shouldWarn
      && out.0.timestamp == Some(entry.timestamp)
  {
  }

  // ---------------------------------------------------------------- other handlers

  /** `handleTaskUpdated(task)`: the only handler that clears the cache. */
  function HandleTaskUpdated(e: Engine, task: Option<string>): (r: Engine)
    ensures r.config == e.config.(currentTask := task)
    ensures |r.cache| == 0
    ensures r.stats == e.stats
  {
    e.(config := e.config.(currentTask := task), cache := Cache.Clear())
  }

  /** After a task change nothing is answered from the cache. */
  lemma NoCacheAfterTaskUpdate(e: Engine, task: Option<string>, p: Page, html: Option<string>, ai: Cl.Analysis, now: int)
    ensures HandleUrlCheck(HandleTaskUpdated(e, task), p, html, ai, now).0.source != "cache"
  {
    var e0 := HandleTaskUpdated(e, task);
    if e0.config.enabled && Hostname(p).Some? {
      var e1 := e0.(stats := Stats.Increment(e0.stats, PAGES_ANALYZED));
      TriageCacheSource(e1, p, Hostname(p).value, html, ai, now);
      assert Cache.Get(e1.cache, p.url, now).hit.None?;
    }
  }

  /** Only a cache hit is replied with source `cache`. */
  lemma TriageCacheSource(e: Engine, p: Page, host: string, html: Option<string>, ai: Cl.Analysis, now: int)
    ensures Triage(e, p, host, html, ai, now).0.source == "cache" ==> Cache.Get(e.cache, p.url, now).hit.Some?
  {
    if !IsStrictlyBlocked(e.config.blockList, host) && GetAllowDecision(e.config, host, p).Some? {
      assert GetAllowDecision(e.config, host, p).value.source in {ALLOWLIST_SOURCE, ALLOWURL_SOURCE};
    }
  }

  /** The `blockListUpdated` message: the list is taken as sent. */
  function UpdateBlockList(e: Engine, list: seq<string>): (r: Engine)
    ensures r.config.blockList == list
    ensures r.cache == e.cache && r.stats == e.stats
    ensures r.config == e.config.(blockList := list)
  {
    e.(config := e.config.(blockList := list))
  }

  /** `updateAllowList(list)`: the list is sanitized; the cache is kept. */
  function UpdateAllowList(e: Engine, list: seq<string>): (r: Engine)
    ensures r.config.allowList == N.SanitizeDomainList(list)
    ensures NoDuplicates(r.config.allowList)
    ensures r.cache == e.cache && r.stats == e.stats
    ensures r.config == e.config.(allowList := r.config.allowList)
  {
    e.(config := e.config.(allowList := N.SanitizeDomainList(list)))
  }

  /** The `allowedUrlsUpdated` message: stored entries are loaded through the
      signature normalizer (`parse` stands for the URL constructor); the cache is
      kept, so a decision cached for a page whose signature was removed survives. */
  function UpdateAllowedUrls(e: Engine, raw: seq<string>, parse: string -> Option<N.ParsedUrl>): (r: Engine)
    ensures r.config.allowedUrls == N.LoadAllowedUrlSignatures(raw, s => N.NormalizeUrlForAllowList(parse(s)))
    ensures NoDuplicates(r.config.allowedUrls)
    ensures r.cache == e.cache && r.stats == e.stats
    ensures r.config == e.config.(allowedUrls := r.config.allowedUrls)
  {
    e.(config := e.config.(allowedUrls := N.LoadAllowedUrlSignatures(raw, s => N.NormalizeUrlForAllowList(parse(s)))))
  }

  /** `addHostnameToAllowList(hostname)`: the cleaned host is appended once; a
      blank one is ignored. */
  function AddHostnameToAllowList(e: Engine, hostname: Option<string>): (r: Engine)
    ensures var clean := N.CleanEntry(hostname.GetOr(""));
      && (clean == "" ==> r == e)
      && (clean != "" ==> clean in r.config.allowList)
      && (clean != "" && clean in e.config.allowList ==> r == e)
      && (clean != "" && clean !in e.config.allowList ==> r.config.allowList == e.config.allowList + [clean])
    ensures r.cache == e.cache && r.stats == e.stats
    ensures r.config == e.config.(allowList := r.config.allowList)
  {
    var clean := N.CleanEntry(hostname.GetOr(""));
    if clean == "" || clean in e.config.allowList then e
    else e.(config := e.config.(allowList := e.config.allowList + [clean]))
  }

  /** Adding a host keeps a duplicate-free allow list duplicate-free. */
  lemma AddHostnameKeepsDistinct(e: Engine, hostname: Option<string>)
    requires NoDuplicates(e.config.allowList)
    ensures NoDuplicates(AddHostnameToAllowList(e, hostname).config.allowList)
  {
  }

  datatype AllowResult =
    | AllowFailed(error: string)
    | Allowed(hostname: string, signature: string)

  const ALLOWED_PAGE_REASON := "You allowed this page"

  /** The cache entry written when the user allows a page. */
  const ALLOWED_PAGE_DECISION := Decision(false, false, ALLOWED_PAGE_REASON, Some(ALLOWURL_SOURCE), None, None)

  /** `handleAllowCurrentUrl(url)`: an invalid URL fails and changes nothing;
      otherwise the page's signature is recorded once and an allow decision is
      cached for the URL. */
  function HandleAllowCurrentUrl(e: Engine, p: Page, now: int): (out: (AllowResult, Engine))
    ensures Hostname(p).None? ==> out == (AllowFailed("Invalid URL"), e)
    ensures Hostname(p).Some? ==>
      var sig := N.NormalizeUrlForAllowList(p.parsed).value;
      && out.0 == Allowed(Hostname(p).value, sig)
      && sig in out.1.config.allowedUrls
      && out.1.config.allowedUrls == (if sig in e.config.allowedUrls then e.config.allowedUrls
                                      else e.config.allowedUrls + [sig])
      && out.1.cache == Cache.Set(e.cache, p.url, ALLOWED_PAGE_DECISION, now)
      && out.1.stats == e.stats
    ensures out.1.config == e.config.(allowedUrls := out.1.config.allowedUrls)
  {
    match Hostname(p)
    case None => (AllowFailed("Invalid URL"), e)
    case Some(host) =>
      var sig := N.NormalizeUrlForAllowList(p.parsed).value;
      var urls := if sig in e.config.allowedUrls then e.config.allowedUrls else e.config.allowedUrls + [sig];
      (Allowed(host, sig), e.(config := e.config.(allowedUrls := urls),
                              cache := Cache.Set(e.cache, p.url, ALLOWED_PAGE_DECISION, now)))
  }

  /** Allowing a page keeps the signature list duplicate-free. */
  lemma AllowCurrentUrlKeepsDistinct(e: Engine, p: Page, now: int)
    requires NoDuplicates(e.config.allowedUrls)
    ensures NoDuplicates(HandleAllowCurrentUrl(e, p, now).1.config.allowedUrls)
  {
  }

  /** Once a page is allowed, every later check of it is allowed too (by the host
      allow list or by its signature), unless its host is on the block list. */
  lemma AllowedPageStaysAllowed(e: Engine, p: Page, now: int, html: Option<string>, ai: Cl.Analysis, later: int)
    requires e.config.enabled && Hostname(p).Some?
    requires !IsStrictlyBlocked(e.config.blockList, Hostname(p).value)
    ensures var e2 := HandleAllowCurrentUrl(e, p, now).1;
      var out := HandleUrlCheck(e2, p, html, ai, later);
      && !out.0.shouldWarn && out.0.isAllowed == Some(true)
      && out.0.source in {ALLOWLIST_SOURCE, ALLOWURL_SOURCE}
  {
    var e2 := HandleAllowCurrentUrl(e, p, now).1;
    var host := Hostname(p).value;
    var e3 := e2.(stats := Stats.Increment(e2.stats, PAGES_ANALYZED));
    assert GetAllowDecision(e3.config, host, p).Some?;
  }
}
