/**
 * `get_client`, `_call_gemini`, `_is_rate_limit` and `generate`: one logical text
 * generation against the hosted model, retried once after a fixed wait when the
 * first attempt fails with a rate-limit error, every failure wrapped as a
 * story-engine error. The provider and the clock are not code of this system: the
 * provider is an oracle, and what `generate` does to the world (requests sent,
 * time slept) is returned as a trace of events.
 */
module Generation {
  import opened Wrappers
  import opened Strings

  const GEMINI_MODEL: string := "gemini-2.5-flash"
  const RETRY_WAIT_SECONDS: nat := 45
  const MISSING_KEY_MESSAGE: string := "GEMINI_API_KEY environment variable is not set"
  const ENGINE_ERROR_PREFIX: string := "Story engine error: "
  const PROMPT_PREAMBLE: string := "You are a narrative engine for an interactive story. Genre: "

  /** What one `generate_content` call does: a response whose `text` may be absent, or an exception's message */
  datatype Reply = Answer(text: Option<string>) | Raised(message: string)

  /** The provider's answer to the n-th request (counting from 0) of one `generate` with the given prompt */
  type Provider = (nat, string) -> Reply

  /** Effects of `generate` on the world, in order */
  datatype Event = Requested(model: string, prompt: string) | Slept(seconds: nat)

  datatype Client = Client(apiKey: string)

  /** The outcome of `get_client` for the value of GEMINI_API_KEY in the environment */
  function GetClient(apiKey: Option<string>): Result<Client, string> {
    if apiKey.None? || apiKey.value == "" then Failure(MISSING_KEY_MESSAGE)
    else Success(Client(apiKey.value))
  }

  /** `_call_gemini` given the provider's reply: stripped text, "" when there is none, or the exception */
  function CallGemini(reply: Reply): (r: Result<string, string>)
    ensures reply.Raised? <==> r.Failure?
    ensures reply.Raised? ==> r.error == reply.message
    ensures reply.Answer? && reply.text.Some? ==> Trimmed(reply.text.value, r.value, IsSpace)
    ensures reply.Answer? && reply.text.None? ==> r.value == ""
  {
    match reply
    case Raised(message) => Failure(message)
    case Answer(text) =>
      if text.Some? && text.value != "" then
        StripIsTrimmed(text.value, StripSpace(text.value), IsSpace);
        Success(StripSpace(text.value))
      else
        assert text.Some? ==> TrimmedAt(text.value, "", 0, IsSpace);
        Success("")
  }

  /** `_is_rate_limit`: the upper-cased message mentions 429, RESOURCE_EXHAUSTED or QUOTA */
  predicate IsRateLimit(message: string) {
    var m := Upper(message);
    Contains(m, "429") || Contains(m, "RESOURCE_EXHAUSTED") || Contains(m, "QUOTA")
  }

  /** The prompt `generate` sends */
  function FullPrompt(genre: string, systemHint: string, userPrompt: string): string {
    PROMPT_PREAMBLE + genre + ". " + systemHint + "\n\n" + userPrompt
  }

  /** The text of the RuntimeError `generate` raises for an underlying error message */
  function EngineError(message: string): (e: string)
    ensures |e| == |ENGINE_ERROR_PREFIX| + |message|
    ensures e[..|ENGINE_ERROR_PREFIX|] == ENGINE_ERROR_PREFIX && e[|ENGINE_ERROR_PREFIX|..] == message
  {
    ENGINE_ERROR_PREFIX + message
  }

  lemma EngineErrorInjective(m1: string, m2: string)
    ensures EngineError(m1) == EngineError(m2) ==> m1 == m2
  {
  }

  /** An unsuccessful attempt becomes a wrapped failure; a success is kept */
  function Wrapped(attempt: Result<string, string>): Result<string, string> {
    match attempt
    case Success(text) => Success(text)
    case Failure(message) => Failure(EngineError(message))
  }

  datatype Outcome = Outcome(result: Result<string, string>, trace: seq<Event>)

  /** The retry policy of `generate`, as a function of the environment and the provider */
  function GenerateOutcome(apiKey: Option<string>, prompt: string, provider: Provider): (o: Outcome)
    // no request without a client; then at most two, always with the same model and prompt
    ensures GetClient(apiKey).Failure? ==> o.trace == []
    ensures GetClient(apiKey).Success? ==> 1 <= |o.trace| && o.trace[0] == Requested(GEMINI_MODEL, prompt)
    ensures o.trace == [] || o.trace == [Requested(GEMINI_MODEL, prompt)]
      || o.trace == [Requested(GEMINI_MODEL, prompt), Slept(RETRY_WAIT_SECONDS), Requested(GEMINI_MODEL, prompt)]
    // the retry happens exactly when the first attempt raised a rate-limit error
    ensures |o.trace| == 3 <==>
      GetClient(apiKey).Success? && provider(0, prompt).Raised? && IsRateLimit(provider(0, prompt).message)
    // every failure is a wrapped error; a missing key is one of them
    ensures o.result.Failure? ==> exists m :: o.result.error == EngineError(m)
    ensures GetClient(apiKey).Failure? ==> o.result == Failure(EngineError(MISSING_KEY_MESSAGE))
    // the result is the last attempt's
    ensures |o.trace| == 1 ==> o.result == Wrapped(CallGemini(provider(0, prompt)))
    ensures |o.trace| == 3 ==> o.result == Wrapped(CallGemini(provider(1, prompt)))
  {
    match GetClient(apiKey)
    case Failure(message) => Outcome(Failure(EngineError(message)), [])
    case Success(_) =>
      var first := CallGemini(provider(0, prompt));
      if first.Success? || !IsRateLimit(first.error) then
        Outcome(Wrapped(first), [Requested(GEMINI_MODEL, prompt)])
      else
        Outcome(
          Wrapped(CallGemini(provider(1, prompt))),
          [Requested(GEMINI_MODEL, prompt), Slept(RETRY_WAIT_SECONDS), Requested(GEMINI_MODEL, prompt)])
  }

  /** `generate(genre, user_prompt, system_hint)` */
  method Generate(genre: string, userPrompt: string, systemHint: string, apiKey: Option<string>, provider: Provider)
    returns (r: Result<string, string>, trace: seq<Event>)
    ensures Outcome(r, trace) == GenerateOutcome(apiKey, FullPrompt(genre, systemHint, userPrompt), provider)
  {
    trace := [];
    var client := GetClient(apiKey);
    if client.Failure? {
      return Failure(EngineError(client.error)), trace;
    }
    var prompt := FullPrompt(genre, systemHint, userPrompt);
    trace := trace + [Requested(GEMINI_MODEL, prompt)];
    var first := CallGemini(provider(0, prompt));
    if first.Success? {
      return first, trace;
    }
    if !IsRateLimit(first.error) {
      return Failure(EngineError(first.error)), trace;
    }
    trace := trace + [Slept(RETRY_WAIT_SECONDS)];
    trace := trace + [Requested(GEMINI_MODEL, prompt)];
    var second := CallGemini(provider(1, prompt));
    if second.Success? {
      return second, trace;
    }
    return Failure(EngineError(second.error)), trace;
  }

  /** In the code as written the missing-key ValueError is caught by generate's own handler, so callers see a RuntimeError */
  lemma MissingKeyIsEngineError(prompt: string, provider: Provider)
    ensures GenerateOutcome(None, prompt, provider) == Outcome(Failure(ENGINE_ERROR_PREFIX + MISSING_KEY_MESSAGE), [])
    ensures GenerateOutcome(Some(""), prompt, provider) == Outcome(Failure(ENGINE_ERROR_PREFIX + MISSING_KEY_MESSAGE), [])
  {
  }

  /** A first error that is not a rate limit is never retried */
  lemma NoRetryWithoutRateLimit(apiKey: Option<string>, prompt: string, provider: Provider)
    requires provider(0, prompt).Raised? && !IsRateLimit(provider(0, prompt).message)
    ensures |GenerateOutcome(apiKey, prompt, provider).trace| <= 1
    ensures GenerateOutcome(apiKey, prompt, provider).result.Failure?
  {
  }

  /** The rate-limit test ignores the case of the message */
  lemma RateLimitIgnoresCase(message: string)
    ensures IsRateLimit(message) <==> IsRateLimit(Upper(message))
  {
    UpperIdempotent(message);
  }

  lemma {:induction false} UpperIdempotent(s: string)
    ensures Upper(Upper(s)) == Upper(s)
  {
    if s != [] {
      UpperIdempotent(s[1..]);
    }
  }

  /** A marker that appears in the message in any case makes it a rate-limit error */
  lemma MarkerInAnyCase(message: string, k: nat, marker: string)
    requires marker == "429" || marker == "RESOURCE_EXHAUSTED" || marker == "QUOTA"
    requires k + |marker| <= |message| && Upper(message[k..k + |marker|]) == marker
    ensures IsRateLimit(message)
  {
    UpperSlice(message, k, |marker|);
    assert OccursAt(Upper(message), marker, k);
    ContainsMeaning(Upper(message), marker);
  }

  /** A rate-limited first attempt is followed by a 45-second wait and one more request, whose result is final */
  lemma RetryRecovers(key: string, prompt: string, provider: Provider, text: string)
    requires key != ""
    requires provider(0, prompt).Raised? && IsRateLimit(provider(0, prompt).message)
    requires provider(1, prompt) == Answer(Some(text))
    ensures GenerateOutcome(Some(key), prompt, provider) ==
      Outcome(Success(StripSpace(text)),
        [Requested(GEMINI_MODEL, prompt), Slept(RETRY_WAIT_SECONDS), Requested(GEMINI_MODEL, prompt)])
  {
    StripIsTrimmed(text, CallGemini(Answer(Some(text))).value, IsSpace);
  }

  /** A message that starts with a lower-case "quota" is a rate-limit error */
  lemma LowercaseQuotaIsRateLimit(message: string)
    requires |message| >= 5 && message[..5] == "quota"
    ensures IsRateLimit(message)
  {
    assert Upper("quota") == "QUOTA";
    MarkerInAnyCase(message, 0, "QUOTA");
  }
}
