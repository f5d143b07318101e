/** The four provider retry loops (apps/common/ai_service.py, _generate_with_*_retry).

    Replies are an arbitrary script, one per request. A loop's classification of a reply
    is its `Verdict`; what the loop does with verdicts is the contract `IsRetry`.
 */
module Retry {
  import opened Text

  datatype Error = QuotaExceeded | GenerationFailed | RateLimitAfterRetries | KeyRejected | RequestRejected

  datatype Verdict = Deliver(content: string) | Abort(error: Error) | Wait(seconds: real)

  /** An SDK reply: content, or an exception with its text, HTTP status if it has one,
      and the delay in seconds its text names, if any. */
  datatype Reply =
    | Content(content: string)
    | Raised(isRateLimit: bool, status: Option<int>, text: string, hint: Option<real>)

  /** An HTTP reply: no response at all, or a status, the retry-after header when it is a
      number, and the text extracted from a 200 body when it holds an answer. */
  datatype HttpReply = NoResponse | Http(status: int, retryAfter: Option<real>, answer: Option<string>)

  /** What a loop ended with, how many requests it sent and how long it slept each time. */
  datatype Run = Run(ending: Result<string, Error>, requests: nat, sleeps: seq<real>)

  function Clamp(x: real, low: real, high: real): (r: real)
    requires low <= high
    ensures low <= r <= high && (low <= x <= high ==> r == x)
  {
    if x < low then low else if high < x then high else x
  }

  // ---------- classification ----------

  function OpenAIVerdict(reply: Reply): Verdict {
    match reply
    case Content(content) => Deliver(content)
    case Raised(isRateLimit, _, text, hint) =>
      if !isRateLimit then Abort(GenerationFailed)
      else if Contains(Lower(text), "insufficient_quota") || Contains(Lower(text), "exceeded your current quota") then
        Abort(QuotaExceeded)
      else Wait(Clamp(if hint.Some? then hint.value + 1.0 else 10.0, 1.0, 60.0))
  }

  predicate DeepSeekBalanceExhausted(status: Option<int>, text: string) {
    status == Some(402) || Contains(Lower(text), "insufficient balance") || Contains(Lower(text), "insufficient_quota")
  }

  function PowerOfTwo(k: nat): (p: real)
    ensures p >= 1.0
  {
    if k == 0 then 1.0 else 2.0 * PowerOfTwo(k - 1)
  }

  function DeepSeekVerdict(reply: Reply, attempt: nat): Verdict {
    match reply
    case Content(content) => Deliver(content)
    case Raised(isRateLimit, status, text, _) =>
      if DeepSeekBalanceExhausted(status, text) then Abort(QuotaExceeded)
      else if isRateLimit || status == Some(429) || status.GetOr(0) >= 500 then
        Wait(Clamp(PowerOfTwo(attempt), 1.0, 60.0))
      else Abort(GenerationFailed)
  }

  predicate MentionsAny(text: string, indicators: seq<string>) {
    exists i :: 0 <= i < |indicators| && Contains(text, indicators[i])
  }

  const GEMINI_DAILY: seq<string> := [
    "generate_content_free_tier_requests",
    "generaterequestsperdayperprojectpermodel-freetier",
    "perdayperprojectpermodel",
    "free_tier_requests"
  ]

  const GEMINI_PERMANENT: seq<string> := [
    "you exceeded your current quota",
    "quota exceeded",
    "quota_exceeded",
    "api key not valid",
    "api_key_invalid",
    "api key expired"
  ]

  const GEMINI_TEMPORARY: seq<string> := ["429", "rate limit", "rate_limit", "too many requests"]

  predicate GeminiQuotaExhausted(text: string) {
    var t := Lower(text);
    if MentionsAny(t, GEMINI_DAILY) then true
    else if Contains(t, "retry in") || Contains(t, "retry_delay") then false
    else MentionsAny(t, GEMINI_PERMANENT)
  }

  function GeminiVerdict(reply: Reply): Verdict {
    match reply
    case Content(content) => Deliver(content)
    case Raised(_, _, text, hint) =>
      if GeminiQuotaExhausted(text) then Abort(QuotaExceeded)
      else if MentionsAny(Lower(text), GEMINI_TEMPORARY) then
        Wait(Clamp(if hint.Some? then hint.value + 1.0 else 60.0, 1.0, 120.0))
      else Abort(GenerationFailed)
  }

  function AnthropicVerdict(reply: HttpReply): Verdict {
    match reply
    case NoResponse => Abort(GenerationFailed)
    case Http(status, retryAfter, answer) =>
      if status == 200 then if answer.Some? then Deliver(answer.value) else Abort(GenerationFailed)
      else if status == 401 || status == 403 then Abort(KeyRejected)
      else if status == 402 then Abort(QuotaExceeded)
      else if status == 429 || status >= 500 then
        Wait(if retryAfter.Some? then Clamp(retryAfter.value + 1.0, 1.0, 60.0) else 10.0)
      else Abort(RequestRejected)
  }

  function OpenAIVerdicts(script: nat -> Reply): nat -> Verdict {
    (i: nat) => OpenAIVerdict(script(i))
  }

  function DeepSeekVerdicts(script: nat -> Reply): nat -> Verdict {
    (i: nat) => DeepSeekVerdict(script(i), i)
  }

  function GeminiVerdicts(script: nat -> Reply): nat -> Verdict {
    (i: nat) => GeminiVerdict(script(i))
  }

  function AnthropicVerdicts(script: nat -> HttpReply): nat -> Verdict {
    (i: nat) => AnthropicVerdict(script(i))
  }

  // ---------- the contract of a loop ----------

  /** Requests 0..requests-1 were sent; all but the last were transient and waited for;
      the last was final, or the budget was spent on it. A negative budget sends nothing. */
  ghost predicate IsRetry(verdict: nat -> Verdict, maxRetries: int, run: Run) {
    if maxRetries < 0 then run == Run(Err(GenerationFailed), 0, [])
    else
      && 1 <= run.requests <= maxRetries + 1
      && |run.sleeps| == run.requests - 1
      && (forall i :: 0 <= i < |run.sleeps| ==> verdict(i) == Wait(run.sleeps[i]))
      && match verdict(run.requests - 1)
         case Deliver(content) => run.ending == Ok(content)
         case Abort(error) => run.ending == Err(error)
         case Wait(_) => run.requests == maxRetries + 1 && run.ending == Err(RateLimitAfterRetries)
  }

  method GenerateWithOpenAI(script: nat -> Reply, maxRetries: int) returns (run: Run)
    ensures IsRetry(OpenAIVerdicts(script), maxRetries, run)
  {
    var sleeps: seq<real> := [];
    var attempt := 0;
    while attempt < maxRetries + 1
      invariant |sleeps| == attempt
      invariant attempt == 0 || attempt <= maxRetries
      invariant forall i :: 0 <= i < attempt ==> OpenAIVerdicts(script)(i) == Wait(sleeps[i])
    {
      match script(attempt) {
        case Content(content) =>
          return Run(Ok(content), attempt + 1, sleeps);
        case Raised(isRateLimit, _, text, hint) =>
          if !isRateLimit {
            return Run(Err(GenerationFailed), attempt + 1, sleeps);
          }
          if Contains(Lower(text), "insufficient_quota") || Contains(Lower(text), "exceeded your current quota") {
            return Run(Err(QuotaExceeded), attempt + 1, sleeps);
          }
          if attempt >= maxRetries {
            return Run(Err(RateLimitAfterRetries), attempt + 1, sleeps);
          }
          var wait := 10.0;
          if hint.Some? {
            wait := hint.value + 1.0;
          }
          sleeps := sleeps + [Clamp(wait, 1.0, 60.0)];
      }
      attempt := attempt + 1;
    }
    run := Run(Err(GenerationFailed), 0, []);
  }

  method GenerateWithDeepSeek(script: nat -> Reply, maxRetries: int) returns (run: Run)
    ensures IsRetry(DeepSeekVerdicts(script), maxRetries, run)
  {
    var sleeps: seq<real> := [];
    var attempt := 0;
    while attempt < maxRetries + 1
      invariant |sleeps| == attempt
      invariant attempt == 0 || attempt <= maxRetries
      invariant forall i :: 0 <= i < attempt ==> DeepSeekVerdicts(script)(i) == Wait(sleeps[i])
    {
      match script(attempt) {
        case Content(content) =>
          return Run(Ok(content), attempt + 1, sleeps);
        case Raised(isRateLimit, status, text, _) =>
          if DeepSeekBalanceExhausted(status, text) {
            return Run(Err(QuotaExceeded), attempt + 1, sleeps);
          }
          var rateLimited := isRateLimit || status == Some(429);
          var serverError := status.GetOr(0) >= 500;
          if rateLimited || serverError {
            if attempt >= maxRetries {
              return Run(Err(RateLimitAfterRetries), attempt + 1, sleeps);
            }
            sleeps := sleeps + [Clamp(PowerOfTwo(attempt), 1.0, 60.0)];
          } else {
            return Run(Err(GenerationFailed), attempt + 1, sleeps);
          }
      }
      attempt := attempt + 1;
    }
    run := Run(Err(GenerationFailed), 0, []);
  }

  method GenerateWithGemini(script: nat -> Reply, maxRetries: int) returns (run: Run)
    ensures IsRetry(GeminiVerdicts(script), maxRetries, run)
  {
    var sleeps: seq<real> := [];
    var attempt := 0;
    while attempt < maxRetries + 1
      invariant |sleeps| == attempt
      invariant attempt == 0 || attempt <= maxRetries
      invariant forall i :: 0 <= i < attempt ==> GeminiVerdicts(script)(i) == Wait(sleeps[i])
    {
      match script(attempt) {
        case Content(content) =>
          return Run(Ok(content), attempt + 1, sleeps);
        case Raised(_, _, text, hint) =>
          if GeminiQuotaExhausted(text) {
            return Run(Err(QuotaExceeded), attempt + 1, sleeps);
          }
          if MentionsAny(Lower(text), GEMINI_TEMPORARY) {
            if attempt >= maxRetries {
              return Run(Err(RateLimitAfterRetries), attempt + 1, sleeps);
            }
            var seconds := if hint.Some? then hint.value + 1.0 else 60.0;
            sleeps := sleeps + [Clamp(seconds, 1.0, 120.0)];
          } else {
            return Run(Err(GenerationFailed), attempt + 1, sleeps);
          }
      }
      attempt := attempt + 1;
    }
    run := Run(Err(GenerationFailed), 0, []);
  }

  method GenerateWithAnthropic(script: nat -> HttpReply, maxRetries: int) returns (run: Run)
    ensures IsRetry(AnthropicVerdicts(script), maxRetries, run)
  {
    var sleeps: seq<real> := [];
    var attempt := 0;
    while attempt < maxRetries + 1
      invariant |sleeps| == attempt
      invariant attempt == 0 || attempt <= maxRetries
      invariant forall i :: 0 <= i < attempt ==> AnthropicVerdicts(script)(i) == Wait(sleeps[i])
    {
      match script(attempt) {
        case NoResponse =>
          return Run(Err(GenerationFailed), attempt + 1, sleeps);
        case Http(status, retryAfter, answer) =>
          if status == 200 {
            var ending := if answer.Some? then Ok(answer.value) else Err(GenerationFailed);
            return Run(ending, attempt + 1, sleeps);
          }
          if status == 401 || status == 403 {
            return Run(Err(KeyRejected), attempt + 1, sleeps);
          }
          if status == 402 {
            return Run(Err(QuotaExceeded), attempt + 1, sleeps);
          }
          if status == 429 || status >= 500 {
            if attempt >= maxRetries {
              return Run(Err(RateLimitAfterRetries), attempt + 1, sleeps);
            }
            sleeps := sleeps + [if retryAfter.Some? then Clamp(retryAfter.value + 1.0, 1.0, 60.0) else 10.0];
          } else {
            return Run(Err(RequestRejected), attempt + 1, sleeps);
          }
      }
      attempt := attempt + 1;
    }
    run := Run(Err(GenerationFailed), 0, []);
  }

  // ---------- consequences ----------

  function Sum(xs: seq<real>): real {
    if xs == [] then 0.0 else Sum(xs[..|xs| - 1]) + xs[|xs| - 1]
  }

  ghost predicate WaitsWithin(verdict: nat -> Verdict, cap: real) {
    forall i :: verdict(i).Wait? ==> 1.0 <= verdict(i).seconds <= cap
  }

  lemma {:induction false} SumIsBounded(xs: seq<real>, low: real, high: real)
    requires forall i :: 0 <= i < |xs| ==> low <= xs[i] <= high
    ensures low * |xs| as real <= Sum(xs) <= high * |xs| as real
  {
    if xs != [] {
      SumIsBounded(xs[..|xs| - 1], low, high);
    }
  }

  /** No provider waits longer than its cap. */
  lemma ProviderCaps(sdk: nat -> Reply, http: nat -> HttpReply)
    ensures WaitsWithin(OpenAIVerdicts(sdk), 60.0) && WaitsWithin(DeepSeekVerdicts(sdk), 60.0)
    ensures WaitsWithin(GeminiVerdicts(sdk), 120.0) && WaitsWithin(AnthropicVerdicts(http), 60.0)
  {
    forall i: nat
      ensures OpenAIVerdicts(sdk)(i).Wait? ==> 1.0 <= OpenAIVerdicts(sdk)(i).seconds <= 60.0
      ensures DeepSeekVerdicts(sdk)(i).Wait? ==> 1.0 <= DeepSeekVerdicts(sdk)(i).seconds <= 60.0
      ensures GeminiVerdicts(sdk)(i).Wait? ==> 1.0 <= GeminiVerdicts(sdk)(i).seconds <= 120.0
      ensures AnthropicVerdicts(http)(i).Wait? ==> 1.0 <= AnthropicVerdicts(http)(i).seconds <= 60.0
    {
      assert OpenAIVerdicts(sdk)(i) == OpenAIVerdict(sdk(i));
      assert DeepSeekVerdicts(sdk)(i) == DeepSeekVerdict(sdk(i), i);
      assert GeminiVerdicts(sdk)(i) == GeminiVerdict(sdk(i));
      assert AnthropicVerdicts(http)(i) == AnthropicVerdict(http(i));
    }
  }

  /** At most R + 1 requests and cap * R seconds of sleep, whatever the replies. */
  lemma RetryStaysWithinBudget(verdict: nat -> Verdict, maxRetries: int, run: Run, cap: real)
    requires IsRetry(verdict, maxRetries, run) && WaitsWithin(verdict, cap) && cap >= 0.0
    ensures maxRetries < 0 ==> run.requests == 0 && Sum(run.sleeps) == 0.0
    ensures maxRetries >= 0 ==> 1 <= run.requests <= maxRetries + 1
    ensures maxRetries >= 0 ==> 0.0 <= Sum(run.sleeps) <= cap * maxRetries as real
  {
    if maxRetries >= 0 {
      forall i | 0 <= i < |run.sleeps| ensures 0.0 <= run.sleeps[i] <= cap {
        assert verdict(i) == Wait(run.sleeps[i]);
      }
      SumIsBounded(run.sleeps, 0.0, cap);
      assert |run.sleeps| as real <= maxRetries as real;
      assert cap * |run.sleeps| as real <= cap * maxRetries as real;
    }
  }

  /** Nothing is sent after a final verdict, permanent failure or answer. */
  lemma NothingFollowsAFinalReply(verdict: nat -> Verdict, maxRetries: int, run: Run, k: nat)
    requires IsRetry(verdict, maxRetries, run) && !verdict(k).Wait?
    ensures run.requests <= k + 1
  {
    assert forall i :: 0 <= i < |run.sleeps| ==> verdict(i).Wait?;
  }

  /** A loop answers exactly when the budget reaches an answer preceded only by waits. */
  lemma AnswersExactly(verdict: nat -> Verdict, maxRetries: int, run: Run, content: string)
    requires IsRetry(verdict, maxRetries, run)
    ensures run.ending == Ok(content) <==>
      exists k: nat :: k <= maxRetries && verdict(k) == Deliver(content) && forall j: nat :: j < k ==> verdict(j).Wait?
  {
    if maxRetries >= 0 {
      var last := run.requests - 1;
      assert forall j: nat :: j < last ==> verdict(j) == Wait(run.sleeps[j]);
      forall k: nat | k <= maxRetries && verdict(k) == Deliver(content) && forall j: nat :: j < k ==> verdict(j).Wait?
        ensures k == last
      {
        assert !(k < last);
      }
    }
  }

  /** A loop's run is a function of its replies. */
  lemma RetryIsDeterministic(verdict: nat -> Verdict, maxRetries: int, a: Run, b: Run)
    requires IsRetry(verdict, maxRetries, a) && IsRetry(verdict, maxRetries, b)
    ensures a == b
  {
    if maxRetries >= 0 {
      assert forall i :: 0 <= i < |a.sleeps| ==> verdict(i) == Wait(a.sleeps[i]);
      assert forall i :: 0 <= i < |b.sleeps| ==> verdict(i) == Wait(b.sleeps[i]);
      assert a.requests == b.requests;
    }
  }

  // ---------- which replies are retried, and after how long ----------

  /** Another request follows request `i` exactly when the budget allows it and every reply
      so far was transient. */
  lemma SendsAgainExactly(verdict: nat -> Verdict, maxRetries: int, run: Run, i: nat)
    requires IsRetry(verdict, maxRetries, run)
    ensures run.requests > i + 1 <==> i < maxRetries && forall j: nat :: j <= i ==> verdict(j).Wait?
  {
    if maxRetries >= 0 {
      if run.requests > i + 1 {
        assert forall j: nat :: j <= i ==> verdict(j) == Wait(run.sleeps[j]);
      } else if i < maxRetries {
        assert !verdict(run.requests - 1).Wait?;
      }
    }
  }

  /** A busy or failing server. */
  predicate IsBusy(reply: HttpReply) {
    reply.Http? && (reply.status == 429 || reply.status >= 500)
  }

  lemma AnthropicSendsAgainExactly(script: nat -> HttpReply, maxRetries: int, run: Run, i: nat)
    requires IsRetry(AnthropicVerdicts(script), maxRetries, run)
    ensures run.requests > i + 1 <==> i < maxRetries && forall j: nat :: j <= i ==> IsBusy(script(j))
  {
    SendsAgainExactly(AnthropicVerdicts(script), maxRetries, run, i);
    forall j: nat ensures AnthropicVerdicts(script)(j) == AnthropicVerdict(script(j)) {
    }
  }

  predicate OpenAIQuotaGone(reply: Reply) {
    && reply.Raised? && reply.isRateLimit
    && (Contains(Lower(reply.text), "insufficient_quota") || Contains(Lower(reply.text), "exceeded your current quota"))
  }

  /** A rate limit whose text names no exhausted quota. */
  predicate OpenAITransient(reply: Reply) {
    reply.Raised? && reply.isRateLimit && !OpenAIQuotaGone(reply)
  }

  lemma OpenAISendsAgainExactly(script: nat -> Reply, maxRetries: int, run: Run, i: nat)
    requires IsRetry(OpenAIVerdicts(script), maxRetries, run)
    ensures run.requests > i + 1 <==> i < maxRetries && forall j: nat :: j <= i ==> OpenAITransient(script(j))
  {
    SendsAgainExactly(OpenAIVerdicts(script), maxRetries, run, i);
    forall j: nat ensures OpenAIVerdicts(script)(j) == OpenAIVerdict(script(j)) {
    }
  }

  predicate DeepSeekQuotaGone(reply: Reply) {
    && reply.Raised?
    && (reply.status == Some(402) || Contains(Lower(reply.text), "insufficient balance")
        || Contains(Lower(reply.text), "insufficient_quota"))
  }

  /** A rate limit or a failing server, unless the balance is exhausted. */
  predicate DeepSeekTransient(reply: Reply) {
    && reply.Raised? && !DeepSeekQuotaGone(reply)
    && (reply.isRateLimit || reply.status == Some(429) || (reply.status.Some? && reply.status.value >= 500))
  }

  lemma DeepSeekSendsAgainExactly(script: nat -> Reply, maxRetries: int, run: Run, i: nat)
    requires IsRetry(DeepSeekVerdicts(script), maxRetries, run)
    ensures run.requests > i + 1 <==> i < maxRetries && forall j: nat :: j <= i ==> DeepSeekTransient(script(j))
  {
    SendsAgainExactly(DeepSeekVerdicts(script), maxRetries, run, i);
    forall j: nat ensures DeepSeekVerdicts(script)(j) == DeepSeekVerdict(script(j), j) {
    }
  }

  /** The text reports a quota that a later day, not a later minute, restores. */
  predicate NamesDailyQuota(t: string) {
    || Contains(t, "generate_content_free_tier_requests")
    || Contains(t, "generaterequestsperdayperprojectpermodel-freetier")
    || Contains(t, "perdayperprojectpermodel")
    || Contains(t, "free_tier_requests")
  }

  /** The text reports an exhausted quota or an unusable key. */
  predicate NamesPermanentFailure(t: string) {
    || Contains(t, "you exceeded your current quota")
    || Contains(t, "quota exceeded")
    || Contains(t, "quota_exceeded")
    || Contains(t, "api key not valid")
    || Contains(t, "api_key_invalid")
    || Contains(t, "api key expired")
  }

  predicate NamesRateLimit(t: string) {
    Contains(t, "429") || Contains(t, "rate limit") || Contains(t, "rate_limit") || Contains(t, "too many requests")
  }

  predicate GeminiQuotaGone(reply: Reply) {
    reply.Raised? && var t := Lower(reply.text);
      NamesDailyQuota(t) || (NamesPermanentFailure(t) && !Contains(t, "retry in") && !Contains(t, "retry_delay"))
  }

  /** A rate limit by its text, unless the text names a daily quota, or a permanent failure
      with no delay announced. */
  predicate GeminiTransient(reply: Reply) {
    reply.Raised? && !GeminiQuotaGone(reply) && NamesRateLimit(Lower(reply.text))
  }

  lemma MentionsDaily(t: string)
    ensures MentionsAny(t, GEMINI_DAILY) <==> NamesDailyQuota(t)
  {
    assert NamesDailyQuota(t) <==> (Contains(t, GEMINI_DAILY[0]) || Contains(t, GEMINI_DAILY[1])
                                    || Contains(t, GEMINI_DAILY[2]) || Contains(t, GEMINI_DAILY[3]));
  }

  lemma MentionsPermanent(t: string)
    ensures MentionsAny(t, GEMINI_PERMANENT) <==> NamesPermanentFailure(t)
  {
    assert NamesPermanentFailure(t) <==> (Contains(t, GEMINI_PERMANENT[0]) || Contains(t, GEMINI_PERMANENT[1])
                                          || Contains(t, GEMINI_PERMANENT[2]) || Contains(t, GEMINI_PERMANENT[3])
                                          || Contains(t, GEMINI_PERMANENT[4]) || Contains(t, GEMINI_PERMANENT[5]));
  }

  lemma MentionsTemporary(t: string)
    ensures MentionsAny(t, GEMINI_TEMPORARY) <==> NamesRateLimit(t)
  {
    assert NamesRateLimit(t) <==> (Contains(t, GEMINI_TEMPORARY[0]) || Contains(t, GEMINI_TEMPORARY[1])
                                   || Contains(t, GEMINI_TEMPORARY[2]) || Contains(t, GEMINI_TEMPORARY[3]));
  }

  lemma GeminiClassifies(reply: Reply)
    ensures GeminiVerdict(reply).Wait? <==> GeminiTransient(reply)
    ensures GeminiVerdict(reply) == Abort(QuotaExceeded) <==> GeminiQuotaGone(reply)
  {
    if reply.Raised? {
      MentionsDaily(Lower(reply.text));
      MentionsPermanent(Lower(reply.text));
      MentionsTemporary(Lower(reply.text));
    }
  }

  lemma GeminiSendsAgainExactly(script: nat -> Reply, maxRetries: int, run: Run, i: nat)
    requires IsRetry(GeminiVerdicts(script), maxRetries, run)
    ensures run.requests > i + 1 <==> i < maxRetries && forall j: nat :: j <= i ==> GeminiTransient(script(j))
  {
    SendsAgainExactly(GeminiVerdicts(script), maxRetries, run, i);
    forall j: nat ensures GeminiVerdicts(script)(j).Wait? <==> GeminiTransient(script(j)) {
      GeminiClassifies(script(j));
    }
  }

  /** A wait follows the delay the provider names by a second, or is the provider's default;
      it is never under a second nor over the cap. */
  predicate WaitFollows(seconds: real, hint: Option<real>, default: real, cap: real) {
    var asked := if hint.Some? then hint.value + 1.0 else default;
    if asked < 1.0 then seconds == 1.0 else if asked > cap then seconds == cap else seconds == asked
  }

  lemma WaitsFollowHints(openAI: nat -> Reply, gemini: nat -> Reply, anthropic: nat -> HttpReply, maxRetries: int,
                         a: Run, b: Run, c: Run)
    requires IsRetry(OpenAIVerdicts(openAI), maxRetries, a)
    requires IsRetry(GeminiVerdicts(gemini), maxRetries, b)
    requires IsRetry(AnthropicVerdicts(anthropic), maxRetries, c)
    ensures forall i :: 0 <= i < |a.sleeps| ==>
      openAI(i).Raised? && WaitFollows(a.sleeps[i], openAI(i).hint, 10.0, 60.0)
    ensures forall i :: 0 <= i < |b.sleeps| ==>
      gemini(i).Raised? && WaitFollows(b.sleeps[i], gemini(i).hint, 60.0, 120.0)
    ensures forall i :: 0 <= i < |c.sleeps| ==>
      anthropic(i).Http? && WaitFollows(c.sleeps[i], anthropic(i).retryAfter, 10.0, 60.0)
  {
    assert forall i :: 0 <= i < |a.sleeps| ==> OpenAIVerdict(openAI(i)) == Wait(a.sleeps[i]) by {
      assert forall i: nat :: OpenAIVerdicts(openAI)(i) == OpenAIVerdict(openAI(i));
    }
    assert forall i :: 0 <= i < |b.sleeps| ==> GeminiVerdict(gemini(i)) == Wait(b.sleeps[i]) by {
      assert forall i: nat :: GeminiVerdicts(gemini)(i) == GeminiVerdict(gemini(i));
    }
    assert forall i :: 0 <= i < |c.sleeps| ==> AnthropicVerdict(anthropic(i)) == Wait(c.sleeps[i]) by {
      assert forall i: nat :: AnthropicVerdicts(anthropic)(i) == AnthropicVerdict(anthropic(i));
    }
  }

  /** DeepSeek's waits double from one second up to sixty. */
  lemma {:induction false} DeepSeekWaits(script: nat -> Reply, maxRetries: int, run: Run, i: nat)
    requires IsRetry(DeepSeekVerdicts(script), maxRetries, run) && i < |run.sleeps|
    ensures i == 0 ==> run.sleeps[i] == 1.0
    ensures i > 0 ==> run.sleeps[i] == if run.sleeps[i - 1] > 30.0 then 60.0 else 2.0 * run.sleeps[i - 1]
  {
    assert DeepSeekVerdicts(script)(i) == Wait(run.sleeps[i]);
    assert DeepSeekVerdict(script(i), i) == Wait(Clamp(PowerOfTwo(i), 1.0, 60.0));
    if i > 0 {
      assert DeepSeekVerdicts(script)(i - 1) == Wait(run.sleeps[i - 1]);
      assert DeepSeekVerdict(script(i - 1), i - 1) == Wait(Clamp(PowerOfTwo(i - 1), 1.0, 60.0));
    }
  }

  /** What an Anthropic loop ends with is told by the status of its last reply. */
  lemma AnthropicEndsExactly(script: nat -> HttpReply, maxRetries: nat, run: Run)
    requires IsRetry(AnthropicVerdicts(script), maxRetries, run)
    ensures var last := script(run.requests - 1);
      && (run.ending.Ok? <==> last.Http? && last.status == 200 && last.answer.Some?)
      && (run.ending.Ok? ==> last.answer == Some(run.ending.value))
      && (run.ending == Err(KeyRejected) <==> last.Http? && last.status in {401, 403})
      && (run.ending == Err(QuotaExceeded) <==> last.Http? && last.status == 402)
      && (run.ending == Err(RateLimitAfterRetries) <==> last.Http? && (last.status == 429 || last.status >= 500))
      && (run.ending == Err(GenerationFailed) <==> last.NoResponse? || (last.status == 200 && last.answer.None?))
  {
    var last := run.requests - 1;
    assert AnthropicVerdicts(script)(last) == AnthropicVerdict(script(last));
  }

  /** The ending an SDK loop has when its last reply is `last`. */
  predicate EndsWith(ending: Result<string, Error>, last: Reply, quotaGone: bool, transient: bool) {
    if last.Content? then ending == Ok(last.content)
    else if quotaGone then ending == Err(QuotaExceeded)
    else if transient then ending == Err(RateLimitAfterRetries)
    else ending == Err(GenerationFailed)
  }

  /** An SDK loop ends with the text of an answer, the quota error, the rate-limit error once
      the budget is spent on transient failures, or a plain failure. */
  lemma SdkLoopsEndExactly(script: nat -> Reply, maxRetries: nat, a: Run, b: Run, c: Run)
    requires IsRetry(OpenAIVerdicts(script), maxRetries, a)
    requires IsRetry(DeepSeekVerdicts(script), maxRetries, b)
    requires IsRetry(GeminiVerdicts(script), maxRetries, c)
    ensures var last := script(a.requests - 1); EndsWith(a.ending, last, OpenAIQuotaGone(last), OpenAITransient(last))
    ensures var last := script(b.requests - 1);
      EndsWith(b.ending, last, DeepSeekQuotaGone(last), DeepSeekTransient(last))
    ensures var last := script(c.requests - 1); EndsWith(c.ending, last, GeminiQuotaGone(last), GeminiTransient(last))
  {
    var x, y, z := script(a.requests - 1), script(b.requests - 1), script(c.requests - 1);
    assert OpenAIVerdicts(script)(a.requests - 1) == OpenAIVerdict(x);
    assert DeepSeekVerdicts(script)(b.requests - 1) == DeepSeekVerdict(y, b.requests - 1);
    assert GeminiVerdicts(script)(c.requests - 1) == GeminiVerdict(z);
    GeminiClassifies(z);
  }

  function Durations(duration: nat -> real, n: nat): (ds: seq<real>)
    ensures |ds| == n && forall i :: 0 <= i < n ==> ds[i] == duration(i)
  {
    seq(n, i requires 0 <= i < n => duration(i))
  }

  /** The time a loop takes when request i lasts `duration(i)`. */
  function Elapsed(duration: nat -> real, run: Run): real {
    Sum(Durations(duration, run.requests)) + Sum(run.sleeps)
  }

  function Budget(maxRetries: nat, timeout: real, cap: real): real {
    (maxRetries + 1) as real * timeout + cap * maxRetries as real
  }

  /** With requests bounded by the timeout, a loop takes at most its budget. */
  lemma RetryTakesAtMostItsBudget(verdict: nat -> Verdict, maxRetries: nat, run: Run, cap: real,
                                  duration: nat -> real, timeout: real)
    requires IsRetry(verdict, maxRetries, run) && WaitsWithin(verdict, cap) && cap >= 0.0
    requires forall i :: 0.0 <= duration(i) <= timeout
    ensures 0.0 <= Elapsed(duration, run) <= Budget(maxRetries, timeout, cap)
  {
    RetryStaysWithinBudget(verdict, maxRetries, run, cap);
    var spent := Durations(duration, run.requests);
    SumIsBounded(spent, 0.0, timeout);
    assert 0.0 <= duration(0) <= timeout;
    assert run.requests as real <= (maxRetries + 1) as real;
    assert timeout * run.requests as real <= timeout * (maxRetries + 1) as real;
  }
}
