/** The pure parts of ai-helper.js: reading a one-word classifier reply, the
    productivity-domain skip test and the truncation rules of the prompt. */
module AiHelper {
  import opened Optional
  import opened Strings

  const DISTRACTION_WORD := "DISTRACTION"
  const DEFAULT_REASONING := "AI analysis complete"
  const MIGHT_DISTRACT := "AI detected this might distract from your goal"
  const APPEARS_RELEVANT := "Site appears relevant to your goal"
  /** Replies of at most this many characters carry no reasoning. */
  const REASONING_MIN_LENGTH: nat := 20
  const PREVIEW_LIMIT: nat := 300
  const NOT_AVAILABLE := "N/A"

  datatype AiResult = AiResult(shouldWarn: bool, isDistraction: bool, reason: string, aiReasoning: string, timestamp: int)

  /** The reasoning `parseAIResponse` extracts: the lines after the first, joined
      with spaces and trimmed, for replies longer than 20 characters; otherwise,
      or if that is blank, the default. */
  function AiReasoning(text: string): (r: string)
    ensures |text| <= REASONING_MIN_LENGTH ==> r == DEFAULT_REASONING
    ensures (forall i :: 0 <= i < |text| ==> text[i] != '\n') ==> r == DEFAULT_REASONING
    ensures r == DEFAULT_REASONING || (IsTrimmed(r) && r != "")
  {
    if |text| > REASONING_MIN_LENGTH then
      var lines := Split(text, {'\n'});
      SplitManyIffSep(text, {'\n'});
      if |lines| > 1 then
        var joined := Trim(Join(lines[1..], " "));
        if joined != "" then joined else DEFAULT_REASONING
      else DEFAULT_REASONING
    else DEFAULT_REASONING
  }

  /** The reasoning of a long multi-line reply is its text after the first line
      break, with every further line break read as a space, trimmed. */
  lemma AiReasoningAfterFirstLine(first: string, rest: string)
    requires forall c :: c in first ==> c != '\n'
    requires |first| + 1 + |rest| > REASONING_MIN_LENGTH
    ensures var body := Trim(ReplaceSeps(rest, {'\n'}, ' '));
      AiReasoning(first + "\n" + rest) == if body != "" then body else DEFAULT_REASONING
  {
    SplitAtFirstSep(first, '\n', rest, {'\n'});
    JoinSplit(rest, {'\n'}, ' ');
  }

  /** `parseAIResponse(aiResponse)` at time `now`. */
  function ParseAIResponse(text: string, now: int): (r: AiResult)
    ensures r.isDistraction <==> Contains(Upper(Trim(text)), DISTRACTION_WORD)
    ensures r.shouldWarn == r.isDistraction
    ensures r.reason == (if r.isDistraction then MIGHT_DISTRACT else APPEARS_RELEVANT)
    ensures r.aiReasoning == AiReasoning(text)
    ensures r.timestamp == now
  {
    var d := Contains(Upper(Trim(text)), DISTRACTION_WORD);
    AiResult(d, d, if d then MIGHT_DISTRACT else APPEARS_RELEVANT, AiReasoning(text), now)
  }

  /** The verdict does not depend on letter case. */
  lemma VerdictIgnoresCase(text: string, now: int)
    ensures ParseAIResponse(Lower(text), now).isDistraction == ParseAIResponse(text, now).isDistraction
  {
    TrimLowerCommute(text);
    UpperOfLower(Trim(text));
  }

  /** The built-in domains of the ai-helper skip test, matched as substrings. */
  const SKIP_DOMAINS: seq<string> :=
    ["google.com", "gmail.com", "drive.google.com", "docs.google.com", "github.com", "stackoverflow.com", "localhost"]

  /** `shouldSkipAIAnalysis(url)` of ai-helper.js: true for an unparsable URL,
      otherwise exactly when the host name contains one of the listed domains. */
  function ShouldSkipAIAnalysis(host: Option<string>): (r: bool)
    ensures host.None? ==> r
    ensures host.Some? ==> (r <==> exists i :: 0 <= i < |SKIP_DOMAINS| && Contains(host.value, SKIP_DOMAINS[i]))
  {
    match host
    case None => true
    case Some(h) => exists i :: 0 <= i < |SKIP_DOMAINS| && Contains(h, SKIP_DOMAINS[i])
  }

  const CORE_SKIP_DOMAINS: seq<string> := ["google.com", "gmail.com", "github.com", "stackoverflow.com", "localhost"]

  /** The two Google sub-domains in the list are redundant: every host containing
      them contains `google.com`, so five entries decide the same. */
  lemma SkipDomainsRedundant(h: string)
    ensures ShouldSkipAIAnalysis(Some(h)) <==> exists i :: 0 <= i < |CORE_SKIP_DOMAINS| && Contains(h, CORE_SKIP_DOMAINS[i])
  {
    if ShouldSkipAIAnalysis(Some(h)) {
      var i :| 0 <= i < |SKIP_DOMAINS| && Contains(h, SKIP_DOMAINS[i]);
      if i == 2 || i == 3 {
        GoogleSubdomains(h);
        assert Contains(h, CORE_SKIP_DOMAINS[0]);
      } else {
        var j := if i <= 1 then i else i - 2;
        assert SKIP_DOMAINS[i] == CORE_SKIP_DOMAINS[j];
      }
    }
    if exists i :: 0 <= i < |CORE_SKIP_DOMAINS| && Contains(h, CORE_SKIP_DOMAINS[i]) {
      var i :| 0 <= i < |CORE_SKIP_DOMAINS| && Contains(h, CORE_SKIP_DOMAINS[i]);
      var j := if i <= 1 then i else i + 2;
      assert SKIP_DOMAINS[j] == CORE_SKIP_DOMAINS[i];
    }
  }

  /** A host containing one of the two Google sub-domains contains `google.com`. */
  lemma GoogleSubdomains(h: string)
    requires Contains(h, "drive.google.com") || Contains(h, "docs.google.com")
    ensures Contains(h, "google.com")
  {
    if Contains(h, "drive.google.com") {
      assert MatchAt("drive.google.com", "google.com", 6);
      ContainsTrans(h, "drive.google.com", "google.com");
    } else {
      assert MatchAt("docs.google.com", "google.com", 5);
      ContainsTrans(h, "docs.google.com", "google.com");
    }
  }

  /** The page fields `buildAnalysisPrompt` interpolates. */
  datatype PromptFields = PromptFields(goal: string, url: string, title: string, description: string, preview: string)

  /** `value || 'N/A'` */
  function OrNotAvailable(v: Option<string>): string {
    if v.Some? && v.value != "" then v.value else NOT_AVAILABLE
  }

  /** The fields of `buildAnalysisPrompt(pageInfo, focusGoal)`: the text preview
      is cut to its first 300 characters, a missing description or preview reads
      `N/A`. */
  function BuildAnalysisPrompt(goal: string, url: string, title: string, description: Option<string>,
                               textPreview: Option<string>): (r: PromptFields)
    ensures textPreview.Some? && textPreview.value != "" ==>
      |r.preview| <= PREVIEW_LIMIT && |r.preview| <= |textPreview.value| && r.preview == textPreview.value[..|r.preview|]
      && (|textPreview.value| <= PREVIEW_LIMIT ==> r.preview == textPreview.value)
    ensures textPreview.Some? && |textPreview.value| > PREVIEW_LIMIT ==> r.preview == textPreview.value[..PREVIEW_LIMIT]
    ensures textPreview.None? || textPreview.value == "" ==> r.preview == NOT_AVAILABLE
    ensures description.Some? && description.value != "" ==> r.description == description.value
    ensures description.None? || description.value == "" ==> r.description == NOT_AVAILABLE
    ensures r.goal == goal && r.url == url && r.title == title
  {
    var preview := match textPreview
      case Some(t) =>
        if t == "" then NOT_AVAILABLE
        else if |t| <= PREVIEW_LIMIT then t else t[..PREVIEW_LIMIT]
      case None => NOT_AVAILABLE;
    PromptFields(goal, url, title, OrNotAvailable(description), preview)
  }
}
