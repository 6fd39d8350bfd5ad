/** The response record sent back for a URL check, and the shared builder of
    background/responses.js (`buildResponse` and `responseFactory`). An absent
    property of the JavaScript object is `None`; `null` and absent are not told apart. */
module Responses {
  import opened Optional
  import C = Constants

  datatype Response = Response(
    shouldWarn: bool,
    reason: string,
    source: string,
    currentTask: Option<string>,
    cached: Option<bool>,
    isDistraction: Option<bool>,
    isBlocked: Option<bool>,
    isAllowed: Option<bool>,
    extensionEnabled: Option<bool>,
    error: Option<string>,
    confidence: Option<real>,
    rawAiResponse: Option<string>,
    timestamp: Option<int>)

  const DEFAULT_REASON := "No reason provided"
  const DEFAULT_SOURCE := "unknown"

  /** The `extras` object spread over the built response; only the properties the
      factories use (plus `cached`) are modelled. */
  datatype Extras = Extras(
    cached: Option<bool>,
    isBlocked: Option<bool>,
    extensionEnabled: Option<bool>,
    error: Option<string>)

  const NO_EXTRAS := Extras(None, None, None, None)

  /** The destructured options of `buildResponse`; `None` is `undefined`, so the
      parameter default applies. */
  datatype Options = Options(
    shouldWarn: Option<bool>,
    reason: Option<string>,
    source: Option<string>,
    currentTaskOverride: Option<string>,
    extras: Extras)

  /** `currentTaskOverride ?? config.currentTask ?? FALLBACK_TASK`: nullish, not
      falsy, so an empty override or task is kept. */
  function ChooseTask(override: Option<string>, configTask: Option<string>): (t: string)
    ensures override.Some? ==> t == override.value
    ensures override.None? && configTask.Some? ==> t == configTask.value
    ensures override.None? && configTask.None? ==> t == C.FALLBACK_TASK
  {
    match override
    case Some(o) => o
    case None => configTask.GetOr(C.FALLBACK_TASK)
  }

  /** `buildResponse(options)` against a configuration whose task is `configTask`. */
  function BuildResponse(o: Options, configTask: Option<string>): (r: Response)
    ensures r.shouldWarn == o.shouldWarn.GetOr(false)
    ensures r.reason == (if o.reason.Some? then o.reason.value else DEFAULT_REASON)
    ensures r.source == (if o.source.Some? then o.source.value else DEFAULT_SOURCE)
    ensures r.currentTask == Some(ChooseTask(o.currentTaskOverride, configTask))
    ensures o.extras.cached.None? ==> r.cached == Some(false)
    ensures o.extras.cached.Some? ==> r.cached == o.extras.cached
    ensures r.isBlocked == o.extras.isBlocked && r.extensionEnabled == o.extras.extensionEnabled
    ensures r.error == o.extras.error
    ensures r.isDistraction.None? && r.isAllowed.None? && r.confidence.None?
    ensures r.rawAiResponse.None? && r.timestamp.None?
  {
    Response(
      shouldWarn := o.shouldWarn.GetOr(false),
      reason := o.reason.GetOr(DEFAULT_REASON),
      source := o.source.GetOr(DEFAULT_SOURCE),
      currentTask := Some(ChooseTask(o.currentTaskOverride, configTask)),
      cached := Some(o.extras.cached.GetOr(false)),
      isDistraction := None,
      isBlocked := o.extras.isBlocked,
      isAllowed := None,
      extensionEnabled := o.extras.extensionEnabled,
      error := o.extras.error,
      confidence := None,
      rawAiResponse := None,
      timestamp := None)
  }

  /** The named responses of `responseFactory`. */
  datatype Kind =
    | Disabled
    | InvalidUrl
    | ProductivityAllow
    | NoApiKey
    | NoTask
    | NoHtml
    | StrictBlock
    | AiError(err: Option<string>)

  /** The options each factory passes to the builder. */
  function OptionsFor(k: Kind): (o: Options)
    ensures o.shouldWarn.GetOr(false) <==> k.StrictBlock?
    ensures k.StrictBlock? ==> o.extras.isBlocked == Some(true)
    ensures !k.StrictBlock? ==> o.extras.isBlocked.None?
    ensures k.NoTask? ==> o.currentTaskOverride == Some(C.MISSING_TASK)
    ensures !k.NoTask? ==> o.currentTaskOverride.None?
    ensures k.Disabled? ==> o.extras.extensionEnabled == Some(false)
    ensures k.AiError? ==> o.extras.error == k.err
    ensures o.extras.cached.None?
  {
    match k
    case Disabled =>
      Options(None, Some("Focus Guardian is turned off"), Some("disabled"), None,
              NO_EXTRAS.(extensionEnabled := Some(false)))
    case InvalidUrl =>
      Options(None, Some("Invalid URL provided"), Some("invalid-url"), None, NO_EXTRAS)
    case ProductivityAllow =>
      Options(None, Some("Common productivity site - allowed"), Some("whitelist"), None, NO_EXTRAS)
    case NoApiKey =>
      Options(None, Some("API key not configured - cannot analyze"), Some("no-api-key"), None, NO_EXTRAS)
    case NoTask =>
      Options(None, Some("No focus goal set - cannot analyze"), Some("no-task"), Some(C.MISSING_TASK), NO_EXTRAS)
    case NoHtml =>
      Options(None, Some("Could not get page content"), Some("no-html"), None, NO_EXTRAS)
    case StrictBlock =>
      Options(Some(true), Some("Site is in your strict block list"), Some("blocklist"), None,
              NO_EXTRAS.(isBlocked := Some(true)))
    case AiError(e) =>
      Options(None, Some("AI analysis failed - allowing access"), Some("ai-error"), None,
              NO_EXTRAS.(error := e))
  }

  /** `responseFactory[k]()`: only the strict block warns; every factory response
      is uncached and names a task. */
  function Make(k: Kind, configTask: Option<string>): (r: Response)
    ensures r.shouldWarn <==> k.StrictBlock?
    ensures k.StrictBlock? ==> r.isBlocked == Some(true)
    ensures !k.StrictBlock? ==> r.isBlocked.None?
    ensures k.NoTask? ==> r.currentTask == Some(C.MISSING_TASK)
    ensures !k.NoTask? ==> r.currentTask == Some(configTask.GetOr(C.FALLBACK_TASK))
    ensures k.Disabled? ==> r.extensionEnabled == Some(false)
    ensures k.AiError? ==> r.error == k.err
    ensures r.cached == Some(false)
  {
    BuildResponse(OptionsFor(k), configTask)
  }

  /** Which factory produced a response, read back from its `source` (and its
      `error`, for the AI failure). */
  function KindOf(r: Response): Option<Kind> {
    match r.source
    case "disabled" => Some(Disabled)
    case "invalid-url" => Some(InvalidUrl)
    case "whitelist" => Some(ProductivityAllow)
    case "no-api-key" => Some(NoApiKey)
    case "no-task" => Some(NoTask)
    case "no-html" => Some(NoHtml)
    case "blocklist" => Some(StrictBlock)
    case "ai-error" => Some(AiError(r.error))
    case _ => None
  }

  /** Every factory response names its factory: the sources are pairwise distinct. */
  lemma KindOfMake(k: Kind, configTask: Option<string>)
    ensures KindOf(Make(k, configTask)) == Some(k)
  {
  }

  /** With nothing specified, the builder yields the documented defaults. */
  lemma BuildDefaults(configTask: Option<string>)
    ensures var r := BuildResponse(Options(None, None, None, None, NO_EXTRAS), configTask);
      && !r.shouldWarn && r.reason == DEFAULT_REASON && r.source == DEFAULT_SOURCE
      && r.cached == Some(false) && r.currentTask == Some(configTask.GetOr(C.FALLBACK_TASK))
  {
  }
}
