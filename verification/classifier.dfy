/** Handling of the remote classifier's replies in background.js: the text fallback
    parser `parseAIResponseFallback` and the retry loop of `analyzePageWithAI`.
    The network exchange itself is replaced by a script of three attempt outcomes;
    the JSON parse of a reply is part of that outcome. */
module Classifier {
  import opened Optional
  import opened Strings
  import C = Constants

  // ---------------------------------------------------------------- fallback parser

  datatype Fallback = Fallback(isValid: bool, isDistraction: bool)

  const TRUE_SPACED := "\"isdistraction\": true"
  const TRUE_TIGHT := "\"isdistraction\":true"
  const FALSE_SPACED := "\"isdistraction\": false"
  const FALSE_TIGHT := "\"isdistraction\":false"

  const FENCE := "```"
  const JSON_TAG := "json"
  const KEY := "\"isdistraction\""

  predicate TrueSentinel(t: string) {
    Contains(t, TRUE_SPACED) || Contains(t, TRUE_TIGHT)
  }

  predicate FalseSentinel(t: string) {
    Contains(t, FALSE_SPACED) || Contains(t, FALSE_TIGHT)
  }

  predicate YesWord(t: string) {
    t == "true" || t == "yes" || t == "1"
  }

  predicate NoWord(t: string) {
    t == "false" || t == "no" || t == "0"
  }

  /** `\s*` from `i`: the first index at or after `i` that is not white space. */
  function SkipSpaces(s: string, i: nat): (j: nat)
    requires i <= |s|
    ensures i <= j <= |s|
    ensures j == |s| || !IsSpace(s[j])
    decreases |s| - i
  {
    if i == |s| || !IsSpace(s[i]) then i else SkipSpaces(s, i + 1)
  }

  /** Everything `SkipSpaces` passes over is white space. */
  lemma {:induction false} SkipSpacesSkipsSpaces(s: string, i: nat)
    requires i <= |s|
    ensures forall k :: i <= k < SkipSpaces(s, i) ==> IsSpace(s[k])
    decreases |s| - i
  {
    if i < |s| && IsSpace(s[i]) {
      SkipSpacesSkipsSpaces(s, i + 1);
    }
  }

  /** `[^}]*` from `i`: the first `}` at or after `i`, or the end. */
  function RunEnd(s: string, i: nat): (j: nat)
    requires i <= |s|
    ensures i <= j <= |s|
    ensures j == |s| || s[j] == '}'
    decreases |s| - i
  {
    if i == |s| || s[i] == '}' then i else RunEnd(s, i + 1)
  }

  /** The run `RunEnd` ends holds no `}`. */
  lemma {:induction false} RunEndHasNoBrace(s: string, i: nat)
    requires i <= |s|
    ensures forall k :: i <= k < RunEnd(s, i) ==> s[k] != '}'
    decreases |s| - i
  {
    if i < |s| && s[i] != '}' {
      RunEndHasNoBrace(s, i + 1);
    }
  }

  /** `"isdistraction"\s*:\s*(true|false)` matched at `p`, with the captured verdict. */
  function TailAt(s: string, p: nat): Option<bool> {
    if !MatchAt(s, KEY, p) then None
    else
      var a := SkipSpaces(s, p + |KEY|);
      if a < |s| && s[a] == ':' then
        var b := SkipSpaces(s, a + 1);
        if MatchAt(s, "true", b) then Some(true)
        else if MatchAt(s, "false", b) then Some(false)
        else None
      else None
  }

  /** A stretch from `i` through `p` free of `}` lies inside the run from `i`. */
  lemma {:induction false} RunEndPast(s: string, i: nat, p: nat)
    requires i <= p < |s|
    requires forall k :: i <= k <= p ==> s[k] != '}'
    ensures p < RunEnd(s, i)
    decreases p - i
  {
    if i < p {
      RunEndPast(s, i + 1, p);
    }
  }

  /** The greatest `q` in `[lo, hi)` where `f` yields a value, with that value. */
  function LastSome<T>(f: nat -> Option<T>, lo: nat, hi: nat): (r: Option<(nat, T)>)
    requires lo <= hi
    ensures r.Some? ==> lo <= r.value.0 < hi && f(r.value.0) == Some(r.value.1)
    decreases hi - lo
  {
    if lo == hi then None
    else match f(hi - 1)
      case Some(v) => Some((hi - 1, v))
      case None => LastSome(f, lo, hi - 1)
  }

  /** `LastSome` finds the last value: none lies after the one it returns, and
      when it returns nothing there is none in the range at all. */
  lemma {:induction false} LastSomeIsLast<T>(f: nat -> Option<T>, lo: nat, hi: nat)
    requires lo <= hi
    ensures LastSome(f, lo, hi).Some? ==> forall q :: LastSome(f, lo, hi).value.0 < q < hi ==> f(q).None?
    ensures LastSome(f, lo, hi).None? ==> forall q :: lo <= q < hi ==> f(q).None?
    decreases hi - lo
  {
    if lo < hi && f(hi - 1).None? {
      LastSomeIsLast(f, lo, hi - 1);
    }
  }

  /** The tail matcher over `s`, as a function of the start position. */
  function TailsOf(s: string): nat -> Option<bool> {
    (p: nat) => TailAt(s, p)
  }

  /** The greatest `p` in `[lo, hi)` where the tail matches: the greedy `[^}]*`
      backs off from the right. */
  function LastTail(s: string, lo: nat, hi: nat): (r: Option<(nat, bool)>)
    requires lo <= hi
    ensures r.Some? ==> lo <= r.value.0 < hi && TailAt(s, r.value.0) == Some(r.value.1)
  {
    LastSome(TailsOf(s), lo, hi)
  }

  /** The tail `LastTail` returns is the last one in the range, and there is
      none when it returns nothing. */
  lemma LastTailIsLast(s: string, lo: nat, hi: nat)
    requires lo <= hi
    ensures LastTail(s, lo, hi).Some? ==> forall q :: LastTail(s, lo, hi).value.0 < q < hi ==> TailAt(s, q).None?
    ensures LastTail(s, lo, hi).None? ==> forall q :: lo <= q < hi ==> TailAt(s, q).None?
  {
    var f := TailsOf(s);
    LastSomeIsLast(f, lo, hi);
    assert forall q: nat :: f(q) == TailAt(s, q);
  }

  /** For a fence at `f`: the `{` after the optional `json` tag and white space. */
  function BraceAfterFence(s: string, f: nat): Option<nat>
    requires MatchAt(s, FENCE, f)
  {
    var a := f + |FENCE| + (if MatchAt(s, JSON_TAG, f + |FENCE|) then |JSON_TAG| else 0);
    var b := SkipSpaces(s, a);
    if b < |s| && s[b] == '{' then Some(b) else None
  }

  /** The verdict the fenced-block pattern captures when its match starts at `f`. */
  function FenceVerdictAt(s: string, f: nat): Option<bool> {
    if !MatchAt(s, FENCE, f) then None
    else match BraceAfterFence(s, f)
      case None => None
      case Some(b) =>
        match LastTail(s, b + 1, RunEnd(s, b + 1))
        case None => None
        case Some(pv) => Some(pv.1)
  }

  /** The leftmost start at or after `f` where the pattern matches. */
  function FirstFence(s: string, f: nat): (r: Option<nat>)
    requires f <= |s|
    ensures r.Some? ==> f <= r.value <= |s| && FenceVerdictAt(s, r.value).Some?
    ensures r.Some? ==> forall g :: f <= g < r.value ==> FenceVerdictAt(s, g).None?
    ensures r.None? ==> forall g :: f <= g <= |s| ==> FenceVerdictAt(s, g).None?
    decreases |s| - f
  {
    if FenceVerdictAt(s, f).Some? then Some(f)
    else if f == |s| then None
    else FirstFence(s, f + 1)
  }

  /** `cleaned.match(/```(?:json)?\s*\{[^}]*"isdistraction"\s*:\s*(true|false)/)`:
      the captured verdict of the leftmost match. */
  function FencedVerdict(s: string): Option<bool> {
    match FirstFence(s, 0)
    case None => None
    case Some(f) => FenceVerdictAt(s, f)
  }

  /** The fenced pattern, stated declaratively: a fence at `f`, then an optional
      `json` tag, white space and `{`, then `}`-free text up to `p`, where the key,
      a colon and the verdict `v` follow. */
  predicate PatternMatch(s: string, f: nat, p: nat, v: bool) {
    && MatchAt(s, FENCE, f)
    && BraceAfterFence(s, f).Some?
    && BraceAfterFence(s, f).value < p <= |s|
    && (forall k :: BraceAfterFence(s, f).value < k < p ==> s[k] != '}')
    && TailAt(s, p) == Some(v)
  }

  /** Whatever the scanner captures is a match of the pattern. */
  lemma FencedVerdictSound(s: string)
    requires FencedVerdict(s).Some?
    ensures exists f, p :: PatternMatch(s, f, p, FencedVerdict(s).value)
  {
    var f := FirstFenceVerdict(s);
    var p := PatternAtFence(s, f);
  }

  lemma FirstFenceVerdict(s: string) returns (f: nat)
    requires FencedVerdict(s).Some?
    ensures FenceVerdictAt(s, f).Some? && FencedVerdict(s).value == FenceVerdictAt(s, f).value
  {
    f := FirstFence(s, 0).value;
  }

  lemma PatternAtFence(s: string, f: nat) returns (p: nat)
    requires FenceVerdictAt(s, f).Some?
    ensures PatternMatch(s, f, p, FenceVerdictAt(s, f).value)
  {
    FenceVerdictAtParts(s, f);
    var b := BraceAfterFence(s, f).value;
    p := PatternAtBrace(s, f, b, FenceVerdictAt(s, f).value);
  }

  /** A verdict at fence `f` is the one the last tail before the closing `}` captured. */
  lemma FenceVerdictAtParts(s: string, f: nat)
    requires FenceVerdictAt(s, f).Some?
    ensures MatchAt(s, FENCE, f) && BraceAfterFence(s, f).Some?
    ensures var b := BraceAfterFence(s, f).value;
      && b < |s|
      && LastTail(s, b + 1, RunEnd(s, b + 1)).Some?
      && FenceVerdictAt(s, f).value == LastTail(s, b + 1, RunEnd(s, b + 1)).value.1
  {
  }

  lemma PatternMatchIntro(s: string, f: nat, b: nat, p: nat, v: bool)
    requires MatchAt(s, FENCE, f) && BraceAfterFence(s, f) == Some(b)
    requires b < p <= |s| && TailAt(s, p) == Some(v)
    requires forall k :: b < k < p ==> s[k] != '}'
    ensures PatternMatch(s, f, p, v)
  {
  }

  /** The position the backward scan settles on, after the `{` at `b` of fence `f`,
      is a match of the pattern. */
  lemma PatternAtBrace(s: string, f: nat, b: nat, v: bool) returns (p: nat)
    requires MatchAt(s, FENCE, f) && BraceAfterFence(s, f).Some? && BraceAfterFence(s, f).value == b
    requires b < |s| && LastTail(s, b + 1, RunEnd(s, b + 1)).Some?
    requires LastTail(s, b + 1, RunEnd(s, b + 1)).value.1 == v
    ensures PatternMatch(s, f, p, v)
  {
    var e := RunEnd(s, b + 1);
    var pv := LastTail(s, b + 1, e).value;
    p := pv.0;
    RunEndHasNoBrace(s, b + 1);
    PatternMatchIntro(s, f, b, p, pv.1);
  }

  /** If the pattern matches anywhere, the scanner captures a verdict. */
  lemma FencedVerdictComplete(s: string, f: nat, p: nat, v: bool)
    requires PatternMatch(s, f, p, v)
    ensures FencedVerdict(s).Some?
  {
    var b := BraceAfterFence(s, f).value;
    var e := RunEnd(s, b + 1);
    assert s[p] == '"' by {
      assert MatchAt(s, KEY, p);
      assert s[p..p + |KEY|][0] == KEY[0];
    }
    RunEndPast(s, b + 1, p);
    LastTailIsLast(s, b + 1, e);
    assert LastTail(s, b + 1, e).Some?;
    assert FenceVerdictAt(s, f).Some?;
    assert f <= |s|;
  }

  /** The cascade of `parseAIResponseFallback` on the trimmed, lower-cased reply:
      the true sentinel, then the false sentinel, then the bare words, then the
      fenced block; anything else is invalid. */
  function Classify(t: string): (r: Fallback)
    ensures !r.isValid ==> !r.isDistraction
  {
    if TrueSentinel(t) then Fallback(true, true)
    else if FalseSentinel(t) then Fallback(true, false)
    else if YesWord(t) then Fallback(true, true)
    else if NoWord(t) then Fallback(true, false)
    else match FencedVerdict(t)
      case Some(v) => Fallback(true, v)
      case None => Fallback(false, false)
  }

  /** `parseAIResponseFallback(text)`: the reply is trimmed and lower-cased first. */
  function ParseFallback(text: string): (r: Fallback)
    ensures !r.isValid ==> !r.isDistraction
  {
    Classify(Lower(Trim(text)))
  }

  /** A reply is understood exactly when it holds a sentinel, is a bare word, or
      matches the fenced pattern somewhere. */
  lemma ParseFallbackRecognises(text: string)
    ensures var t := Lower(Trim(text));
      ParseFallback(text).isValid
      <==> TrueSentinel(t) || FalseSentinel(t) || YesWord(t) || NoWord(t)
           || exists f, p, v :: PatternMatch(t, f, p, v)
  {
    ClassifyRecognises(Lower(Trim(text)));
  }

  lemma ClassifyRecognises(t: string)
    ensures Classify(t).isValid
      <==> TrueSentinel(t) || FalseSentinel(t) || YesWord(t) || NoWord(t)
           || exists f, p, v :: PatternMatch(t, f, p, v)
  {
    if FencedVerdict(t).Some? {
      FencedVerdictSound(t);
    }
    if exists f, p, v :: PatternMatch(t, f, p, v) {
      var f, p, v :| PatternMatch(t, f, p, v);
      FencedVerdictComplete(t, f, p, v);
    }
  }

  /** The sentinels outrank the bare words, which outrank the fenced block; a
      verdict read from the fenced block is one the pattern captures. */
  lemma ParseFallbackPrecedence(text: string)
    ensures var t := Lower(Trim(text)); var r := ParseFallback(text);
      && (TrueSentinel(t) ==> r.isValid && r.isDistraction)
      && (!TrueSentinel(t) && FalseSentinel(t) ==> r.isValid && !r.isDistraction)
      && (!TrueSentinel(t) && !FalseSentinel(t) && YesWord(t) ==> r.isValid && r.isDistraction)
      && (!TrueSentinel(t) && !FalseSentinel(t) && NoWord(t) ==> r.isValid && !r.isDistraction)
      && (r.isValid && !TrueSentinel(t) && !FalseSentinel(t) && !YesWord(t) && !NoWord(t)
          ==> exists f, p :: PatternMatch(t, f, p, r.isDistraction))
  {
    ClassifyPrecedence(Lower(Trim(text)));
  }

  lemma ClassifyPrecedence(t: string)
    ensures var r := Classify(t);
      && (TrueSentinel(t) ==> r.isValid && r.isDistraction)
      && (!TrueSentinel(t) && FalseSentinel(t) ==> r.isValid && !r.isDistraction)
      && (!TrueSentinel(t) && !FalseSentinel(t) && YesWord(t) ==> r.isValid && r.isDistraction)
      && (!TrueSentinel(t) && !FalseSentinel(t) && NoWord(t) ==> r.isValid && !r.isDistraction)
      && (r.isValid && !TrueSentinel(t) && !FalseSentinel(t) && !YesWord(t) && !NoWord(t)
          ==> exists f, p :: PatternMatch(t, f, p, r.isDistraction))
  {
    if FencedVerdict(t).Some? {
      FencedVerdictSound(t);
    }
  }

  /** The fallback parser ignores letter case. */
  lemma ParseFallbackIgnoresCase(text: string)
    ensures ParseFallback(Lower(text)) == ParseFallback(text)
  {
    TrimLowerCommute(text);
    LowerIsLowerCase(Trim(Lower(text)));
    assert Lower(Trim(Lower(text))) == Lower(Trim(text)) by {
      LowerIsLowerCase(Trim(text));
      LowerOfLowerCase(Lower(Trim(text)));
    }
  }

  /** The fallback parser ignores surrounding white space. */
  lemma ParseFallbackIgnoresPadding(text: string)
    ensures ParseFallback(Trim(text)) == ParseFallback(text)
  {
    TrimIdempotent(text);
  }

  // ---------------------------------------------------------------- retry loop

  /** The reply once `JSON.parse` has run: `isDistraction` is present only when it
      was a boolean; `None` for the whole reply when parsing threw. */
  datatype JsonReply = JsonReply(isDistraction: Option<bool>, confidence: Option<real>, reason: Option<string>)

  /** One round trip: a thrown transport/API error, or the reply text. */
  datatype Attempt =
    | TransportError(message: string)
    | Reply(text: string, json: Option<JsonReply>)

  /** The outcomes of the (at most) three attempts, in order. */
  type Script = s: seq<Attempt> | |s| == C.MAX_RETRIES witness [TransportError(""), TransportError(""), TransportError("")]

  /** The decision object `analyzePageWithAI` resolves with (its timestamp is the
      time of the call and is added by the caller). */
  datatype Verdict = Verdict(
    shouldWarn: bool,
    isDistraction: bool,
    reason: string,
    confidence: Option<real>,
    rawAiResponse: Option<string>)

  datatype Analysis =
    | Answered(verdict: Verdict, attempts: nat)
    | Raised(message: string)

  const DISTRACTS := "AI detected this site distracts from your goal"
  const RELEVANT := "AI determined this site is relevant to your goal"
  const UNCLEAR := "AI did not provide clear answer - allowing access by default"

  function DefaultReason(isDistraction: bool): string {
    if isDistraction then DISTRACTS else RELEVANT
  }

  /** `x || 0` on the reported confidence: a present number is kept (a present
      zero gives the same zero), a missing one reads 0. */
  function ConfidenceOrZero(c: Option<real>): real {
    match c
    case Some(x) => x
    case None => 0.0
  }

  /** The verdict one reply yields, if any: a JSON boolean first, else the text
      fallback; a transport error yields none. */
  function AttemptVerdict(a: Attempt): (r: Option<Verdict>)
    ensures r.Some? ==> a.Reply? && r.value.shouldWarn == r.value.isDistraction
    ensures r.Some? ==> r.value.rawAiResponse.None?
    ensures a.Reply? && a.json.Some? && a.json.value.isDistraction.Some? ==>
      r.Some? && r.value.isDistraction == a.json.value.isDistraction.value && r.value.confidence.Some?
    ensures a.Reply? && (a.json.None? || a.json.value.isDistraction.None?) ==>
      && (r.Some? <==> ParseFallback(a.text).isValid)
      && (r.Some? ==> r.value == Verdict(ParseFallback(a.text).isDistraction, ParseFallback(a.text).isDistraction,
                                         DefaultReason(ParseFallback(a.text).isDistraction), None, None))
  {
    match a
    case TransportError(_) => None
    case Reply(text, json) =>
      if json.Some? && json.value.isDistraction.Some? then
        var b := json.value.isDistraction.value;
        var reason := match json.value.reason
          case Some(x) => if x != "" then x else DefaultReason(b)
          case None => DefaultReason(b);
        Some(Verdict(b, b, reason, Some(ConfidenceOrZero(json.value.confidence)), None))
      else
        var fb := ParseFallback(text);
        if fb.isValid then Some(Verdict(fb.isDistraction, fb.isDistraction, DefaultReason(fb.isDistraction), None, None))
        else None
  }

  /** The reply after the last unclear attempt: allow, keeping the raw text. */
  function DefaultAllow(text: string): Verdict {
    Verdict(false, false, UNCLEAR, None, Some(text))
  }

  /** Index of the first `Some` at or after `k`. */
  function FirstSome<T>(xs: seq<Option<T>>, k: nat): (r: Option<nat>)
    requires k <= |xs|
    ensures r.Some? ==> k <= r.value < |xs| && xs[r.value].Some?
    ensures r.Some? ==> forall j :: k <= j < r.value ==> xs[j].None?
    ensures r.None? ==> forall j :: k <= j < |xs| ==> xs[j].None?
    decreases |xs| - k
  {
    if k == |xs| then None
    else if xs[k].Some? then Some(k)
    else FirstSome(xs, k + 1)
  }

  /** What each attempt yields. */
  function Verdicts(script: Script): (r: seq<Option<Verdict>>)
    ensures |r| == |script|
    ensures forall i :: 0 <= i < |script| ==> r[i] == AttemptVerdict(script[i])
  {
    seq(|script|, i requires 0 <= i < |script| => AttemptVerdict(script[i]))
  }

  /** Index of the first attempt at or after `k` that yields a verdict. */
  function FirstUsable(script: Script, k: nat): (r: Option<nat>)
    requires k <= |script|
    ensures r.Some? ==> k <= r.value < |script| && AttemptVerdict(script[r.value]).Some?
    ensures r.Some? ==> forall j :: k <= j < r.value ==> AttemptVerdict(script[j]).None?
    ensures r.None? ==> forall j :: k <= j < |script| ==> AttemptVerdict(script[j]).None?
  {
    var vs := Verdicts(script);
    FirstSome(vs, k)
  }

  /** The loop of `analyzePageWithAI` from attempt `k` (0-based) on, over what
      each attempt yields: the first verdict answers; once the attempts are used
      up, the final attempt decides between re-throwing its error and the default
      allow. */
  function RunFrom(vs: seq<Option<Verdict>>, last: Attempt, k: nat): (r: Analysis)
    requires k < |vs|
    ensures FirstSome(vs, k).Some? ==>
      r == Answered(vs[FirstSome(vs, k).value].value, FirstSome(vs, k).value + 1)
    ensures FirstSome(vs, k).None? && last.TransportError? ==> r == Raised(last.message)
    ensures FirstSome(vs, k).None? && last.Reply? ==> r == Answered(DefaultAllow(last.text), |vs|)
    decreases |vs| - k
  {
    if vs[k].Some? then Answered(vs[k].value, k + 1)
    else if k + 1 < |vs| then RunFrom(vs, last, k + 1)
    else match last
      case TransportError(m) => Raised(m)
      case Reply(text, _) => Answered(DefaultAllow(text), k + 1)
  }

  /** `analyzePageWithAI(...)`: the first attempt that yields a verdict wins; if
      none does, the last attempt decides between re-throwing its error and the
      default allow. At most three attempts are made and the warning flag always
      equals the distraction flag. */
  function AnalyzePage(script: Script): (r: Analysis)
    ensures r.Answered? ==> 1 <= r.attempts <= C.MAX_RETRIES
    ensures r.Answered? ==> r.verdict.shouldWarn == r.verdict.isDistraction
    ensures FirstUsable(script, 0).Some? ==>
      r == Answered(AttemptVerdict(script[FirstUsable(script, 0).value]).value, FirstUsable(script, 0).value + 1)
    ensures FirstUsable(script, 0).None? ==>
      (if script[2].TransportError? then r == Raised(script[2].message)
       else r == Answered(DefaultAllow(script[2].text), C.MAX_RETRIES))
  {
    RunFrom(Verdicts(script), script[|script| - 1], 0)
  }

  /** A JSON boolean on the first attempt is taken at once. */
  lemma FirstJsonAnswerWins(script: Script)
    requires script[0].Reply? && script[0].json.Some? && script[0].json.value.isDistraction.Some?
    ensures AnalyzePage(script).Answered? && AnalyzePage(script).attempts == 1
    ensures AnalyzePage(script).verdict.isDistraction == script[0].json.value.isDistraction.value
  {
  }

  /** Three transport errors re-throw the last one. */
  lemma ErrorsEverywhereRaise(script: Script)
    requires forall j :: 0 <= j < |script| ==> script[j].TransportError?
    ensures AnalyzePage(script) == Raised(script[2].message)
  {
  }

  // ---------------------------------------------------------------- prompt

  /** The page text the prompt embeds: the first 30000 characters are sent and the
      first 5000 of those appear in the prompt. */
  function PromptExcerpt(html: string): (r: string)
    ensures |r| <= C.PROMPT_EXCERPT_LIMIT && |r| <= |html|
    ensures r == html[..|r|]
    ensures |html| <= C.PROMPT_EXCERPT_LIMIT ==> r == html
    ensures |html| >= C.PROMPT_EXCERPT_LIMIT ==> |r| == C.PROMPT_EXCERPT_LIMIT
  {
    var sent := if |html| <= C.HTML_SEND_LIMIT then html else html[..C.HTML_SEND_LIMIT];
    if |sent| <= C.PROMPT_EXCERPT_LIMIT then sent else sent[..C.PROMPT_EXCERPT_LIMIT]
  }
}
