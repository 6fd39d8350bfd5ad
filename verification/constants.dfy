/** The numeric and textual constants of the background worker
    (background/constants.js and their inline twins in background.js). */
module Constants {

  // Decision cache
  const CACHE_TTL_MS: nat := 3600000
  const CACHE_MAX_ENTRIES: nat := 100
  const CACHE_TRIMMED_SIZE: nat := 50
  const CACHE_CLEAN_INTERVAL_MS: nat := 3600000
  const STATS_SAVE_INTERVAL_MS: nat := 300000

  // Flight (focus session)
  const MIN_DURATION_MS: nat := 180000
  const TURBULENCE_LIMIT: nat := 5
  const HISTORY_LIMIT: nat := 20

  // Labels used by the response builders
  const FALLBACK_TASK: string := "Stay focused"
  const MISSING_TASK: string := "Please set a focus goal"

  /** Hosts that never go to the classifier (exact host or any sub-domain). */
  const PRODUCTIVITY_ALLOWLIST: seq<string> :=
    ["docs.google.com", "drive.google.com", "gmail.com", "localhost"]

  /** The counters kept by the statistics manager. */
  const STAT_KEYS: seq<string> :=
    ["pagesAnalyzed", "warningsShown", "timesWentBack", "timesContinued", "aiAnalysisCount"]

  // Classifier client
  const MAX_RETRIES: nat := 3
  const HTML_SEND_LIMIT: nat := 30000
  const PROMPT_EXCERPT_LIMIT: nat := 5000
}
