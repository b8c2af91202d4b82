/**
 * The three JSON endpoints: suggest-character, start-story and continue-story.
 * Each reads optional text fields from the request body, normalises them, builds
 * the instruction for the model, calls `generate` and shapes the JSON reply or
 * the error reply. HTTP routing and serialisation stay outside the model: a
 * handler receives the decoded body and returns the status and JSON body.
 */
module Handlers {
  import opened Wrappers
  import opened Strings
  import opened Json
  import opened CharacterParser
  import opened Generation

  const DEFAULT_THEME: string := "adventure"
  const BUSY_MESSAGE: string := "Story engine is busy; try again."
  const NO_ACTION_MESSAGE: string := "No action provided."
  const OPENING_PLACEHOLDER: string := "Something begins..."
  const SEGMENT_PLACEHOLDER: string := "The story continues..."

  datatype Response =
    | JsonReply(status: nat, body: map<string, JsonValue>)
      /** an exception that no `except` clause of the handler catches: the framework's 500 page */
    | Unhandled

  /** `error_response(message, status, detail)` */
  function ErrorResponse(message: string, status: nat, detail: Option<string>): (resp: Response)
    ensures resp.JsonReply? && resp.status == status
    ensures "error" in resp.body && resp.body["error"] == JString(message)
    ensures "detail" in resp.body <==> detail.Some?
    ensures detail.Some? ==> resp.body["detail"] == JString(detail.value)
    ensures resp.body.Keys <= {"error", "detail"}
  {
    var body := map["error" := JString(message)];
    JsonReply(status, if detail.Some? then body["detail" := JString(detail.value)] else body)
  }

  /** The reply to a RuntimeError from `generate`: 503, with the error text only in debug mode */
  function EngineBusy(detail: string, debug: bool): Response {
    ErrorResponse(BUSY_MESSAGE, 503, if debug then Some(detail) else None)
  }

  // ---------------------------------------------------------------------------
  // Reading and normalising the request fields
  // ---------------------------------------------------------------------------

  /** `request.get_json() or {}`; None when the body is a truthy non-object, whose `.get` raises */
  function RequestData(body: JsonValue): Option<map<string, JsonValue>> {
    if !Truthy(body) then Some(map[])
    else if body.JObject? then Some(body.fields)
    else None
  }

  /** `(data.get(key) or default).strip()` for a default without surrounding whitespace; None when a truthy non-string value makes `.strip()` raise */
  function TextField(data: map<string, JsonValue>, key: string, default: string): Option<string> {
    var v := if key in data then data[key] else JNull;
    if !Truthy(v) then Some(default)
    else if v.JString? then Some(StripSpace(v.s))
    else None
  }

  /** `(data.get("theme") or "adventure").strip() or "adventure"` */
  function Theme(data: map<string, JsonValue>): Option<string> {
    match TextField(data, "theme", DEFAULT_THEME)
    case None => None
    case Some(t) => Some(if t == "" then DEFAULT_THEME else t)
  }

  /** The fields start-story and continue-story read, in the order they read them */
  datatype StoryFields = StoryFields(theme: string, name: string, personality: string, storySoFar: string, userAction: string)

  /** Normalisation in start-story: theme, characterName, characterPersonality */
  function StartFields(body: JsonValue): Option<StoryFields> {
    match RequestData(body)
    case None => None
    case Some(data) =>
      match Theme(data)
      case None => None
      case Some(theme) =>
        match TextField(data, "characterName", DEFAULT_NAME)
        case None => None
        case Some(name) =>
          match TextField(data, "characterPersonality", "")
          case None => None
          case Some(personality) => Some(StoryFields(theme, name, personality, "", ""))
  }

  /** Normalisation in continue-story: the start-story fields, then storySoFar and userAction */
  function ContinueFields(body: JsonValue): Option<StoryFields> {
    match StartFields(body)
    case None => None
    case Some(f) =>
      var data := RequestData(body).value;
      match TextField(data, "storySoFar", "")
      case None => None
      case Some(story) =>
        match TextField(data, "userAction", "")
        case None => None
        case Some(action) => Some(f.(storySoFar := story, userAction := action))
  }

  /** Normalisation in suggest-character: the theme only */
  function SuggestTheme(body: JsonValue): Option<string> {
    match RequestData(body)
    case None => None
    case Some(data) => Theme(data)
  }

  // ---------------------------------------------------------------------------
  // The instructions sent to the model
  // ---------------------------------------------------------------------------

  /** The fixed tail of the suggest-character instruction; it is not an f-string, so its braces stay doubled */
  const CHARACTER_INSTRUCTIONS: string :=
    "full name and one sentence personality. Reply only with valid JSON: {{\"name\": \"...\", \"personality\": \"...\"}}."

  const OPENING_INSTRUCTIONS: string :=
    "Write exactly 2 short paragraphs: (1) a tranquil setting where the character is. "
    + "(2) A sudden disruption (event or danger). No dialogue from the narrator; set the scene only."

  const CONTINUATION_INSTRUCTIONS: string :=
    "Write the next narrative segment (2\U{2013}4 sentences) that results from this action. "
    + "Then briefly describe the new situation so the player can choose another action."

  function CharacterPrompt(theme: string): string {
    "Given genre: " + theme + ". Suggest a single protagonist: " + CHARACTER_INSTRUCTIONS
  }

  function OpeningPrompt(name: string, personality: string): string {
    "Character: " + name + ". Personality: " + personality + ". " + OPENING_INSTRUCTIONS
  }

  function ContinuationPrompt(storySoFar: string, userAction: string): string {
    "Story so far:\n" + storySoFar + "\n\n" + "Player action: " + userAction + "\n\n" + CONTINUATION_INSTRUCTIONS
  }

  function ContinuationHint(name: string, personality: string): string {
    "Character: " + name + ". Personality: " + personality + ". Stay in genre."
  }

  /** `opening or "Something begins..."` and `segment or "The story continues..."` */
  function OrPlaceholder(text: string, placeholder: string): string {
    if text == "" then placeholder else text
  }

  /** The suggest-character reply for the parsed character, or for the error `generate` raised */
  function CharacterReply(parsed: Result<Character, string>, debug: bool): (resp: Response)
    ensures resp.JsonReply? && resp.status in {200, 503}
    ensures resp.status == 503 <==> parsed.Failure?
    ensures parsed.Success? ==>
      (resp.body.Keys == {"name", "personality"}
       && resp.body["name"] == parsed.value.name && resp.body["personality"] == parsed.value.personality)
    ensures parsed.Failure? ==> resp == EngineBusy(parsed.error, debug)
  {
    match parsed
    case Failure(error) => EngineBusy(error, debug)
    case Success(c) => JsonReply(200, map["name" := c.name, "personality" := c.personality])
  }

  /** The start-story reply for the outcome of `generate` */
  function OpeningReply(opening: Result<string, string>, debug: bool): (resp: Response)
    ensures resp.JsonReply? && resp.status in {200, 503}
    ensures resp.status == 503 <==> opening.Failure?
    ensures resp.status == 200 ==>
      (resp.body.Keys == {"opening"} && resp.body["opening"].JString? && resp.body["opening"].s != "")
    ensures opening == Success("") ==> resp.body == map["opening" := JString(OPENING_PLACEHOLDER)]
    ensures opening.Success? && opening.value != "" ==> resp.body == map["opening" := JString(opening.value)]
    ensures opening.Failure? ==> resp == EngineBusy(opening.error, debug)
  {
    match opening
    case Failure(error) => EngineBusy(error, debug)
    case Success(text) => JsonReply(200, map["opening" := JString(OrPlaceholder(text, OPENING_PLACEHOLDER))])
  }

  /** The continue-story reply for the outcome of `generate` */
  function SegmentReply(segment: Result<string, string>, debug: bool): (resp: Response)
    ensures resp.JsonReply? && resp.status in {200, 503}
    ensures resp.status == 503 <==> segment.Failure?
    ensures resp.status == 200 ==>
      (resp.body.Keys == {"segment"} && resp.body["segment"].JString? && resp.body["segment"].s != "")
    ensures segment == Success("") ==> resp.body == map["segment" := JString(SEGMENT_PLACEHOLDER)]
    ensures segment.Success? && segment.value != "" ==> resp.body == map["segment" := JString(segment.value)]
    ensures segment.Failure? ==> resp == EngineBusy(segment.error, debug)
  {
    match segment
    case Failure(error) => EngineBusy(error, debug)
    case Success(text) => JsonReply(200, map["segment" := JString(OrPlaceholder(text, SEGMENT_PLACEHOLDER))])
  }

  // ---------------------------------------------------------------------------
  // The handlers
  // ---------------------------------------------------------------------------

  /** POST /api/suggest-character */
  method SuggestCharacter(body: JsonValue, apiKey: Option<string>, provider: Provider, decode: Decoder, debug: bool)
    returns (resp: Response, trace: seq<Event>)
    ensures SuggestTheme(body).None? ==> resp == Unhandled && trace == []
    ensures SuggestTheme(body).Some? ==>
      var theme := SuggestTheme(body).value;
      var g := GenerateOutcome(apiKey, FullPrompt(theme, "", CharacterPrompt(theme)), provider);
      && trace == g.trace
      && resp == CharacterReply(
           match g.result
           case Failure(error) => Failure(error)
           case Success(text) => Success(ParsedCharacter(text, decode)),
           debug)
    // generate wraps every error, a missing key included, so in the model the ValueError branch never answers
    ensures resp.JsonReply? ==> resp.status == 200 || resp.status == 503
    ensures SuggestTheme(body).Some? && GetClient(apiKey).Failure? ==>
      resp == EngineBusy(EngineError(MISSING_KEY_MESSAGE), debug) && trace == []
  {
    var theme := SuggestTheme(body);
    if theme.None? {
      return Unhandled, [];
    }
    var text;
    text, trace := Generate(theme.value, CharacterPrompt(theme.value), "", apiKey, provider);
    if text.Failure? {
      return CharacterReply(Failure(text.error), debug), trace;
    }
    var c := ParseCharacterResponse(text.value, decode);
    resp := CharacterReply(Success(c), debug);
  }

  /** POST /api/start-story */
  method StartStory(body: JsonValue, apiKey: Option<string>, provider: Provider, debug: bool)
    returns (resp: Response, trace: seq<Event>)
    ensures StartFields(body).None? ==> resp == Unhandled && trace == []
    ensures StartFields(body).Some? ==>
      var f := StartFields(body).value;
      var g := GenerateOutcome(apiKey, FullPrompt(f.theme, "", OpeningPrompt(f.name, f.personality)), provider);
      trace == g.trace && resp == OpeningReply(g.result, debug)
    ensures resp.JsonReply? ==> resp.status == 200 || resp.status == 503
    ensures StartFields(body).Some? && GetClient(apiKey).Failure? ==>
      resp == EngineBusy(EngineError(MISSING_KEY_MESSAGE), debug) && trace == []
  {
    var f := StartFields(body);
    if f.None? {
      return Unhandled, [];
    }
    var opening;
    opening, trace := Generate(f.value.theme, OpeningPrompt(f.value.name, f.value.personality), "", apiKey, provider);
    resp := OpeningReply(opening, debug);
  }

  /** POST /api/continue-story */
  method ContinueStory(body: JsonValue, apiKey: Option<string>, provider: Provider, debug: bool)
    returns (resp: Response, trace: seq<Event>)
    ensures ContinueFields(body).None? ==> resp == Unhandled && trace == []
    // an empty action is refused before anything is sent to the model
    ensures ContinueFields(body).Some? && ContinueFields(body).value.userAction == "" ==>
      resp == ErrorResponse(NO_ACTION_MESSAGE, 400, None) && trace == []
    ensures ContinueFields(body).Some? && ContinueFields(body).value.userAction != "" ==>
      var f := ContinueFields(body).value;
      var g := GenerateOutcome(apiKey,
        FullPrompt(f.theme, ContinuationHint(f.name, f.personality), ContinuationPrompt(f.storySoFar, f.userAction)),
        provider);
      trace == g.trace && resp == SegmentReply(g.result, debug)
    ensures resp.JsonReply? ==> resp.status == 200 || resp.status == 400 || resp.status == 503
    ensures resp.JsonReply? && resp.status == 400 ==> trace == []
    ensures ContinueFields(body).Some? && ContinueFields(body).value.userAction != "" && GetClient(apiKey).Failure? ==>
      resp == EngineBusy(EngineError(MISSING_KEY_MESSAGE), debug) && trace == []
  {
    var f := ContinueFields(body);
    if f.None? {
      return Unhandled, [];
    }
    if f.value.userAction == "" {
      return ErrorResponse(NO_ACTION_MESSAGE, 400, None), [];
    }
    var segment;
    segment, trace := Generate(
      f.value.theme,
      ContinuationPrompt(f.value.storySoFar, f.value.userAction),
      ContinuationHint(f.value.name, f.value.personality),
      apiKey, provider);
    resp := SegmentReply(segment, debug);
  }

  // ---------------------------------------------------------------------------
  // Properties of the normalisation
  // ---------------------------------------------------------------------------

  /** A text that is all whitespace strips to "" */
  lemma BlankStripsToEmpty(s: string)
    requires All(s, IsSpace)
    ensures StripSpace(s) == ""
  {
    assert s[..0] == [] && s[0..] == s;
    assert TrimmedAt(s, "", 0, IsSpace);
    TrimmedIsStrip(s, "", IsSpace);
  }

  /** The theme is "adventure" when missing, falsy or blank; otherwise it is the stripped text given */
  lemma ThemeDefaulting(data: map<string, JsonValue>)
    ensures "theme" !in data ==> Theme(data) == Some(DEFAULT_THEME)
    ensures "theme" in data && !Truthy(data["theme"]) ==> Theme(data) == Some(DEFAULT_THEME)
    ensures "theme" in data && data["theme"].JString? && All(data["theme"].s, IsSpace) ==> Theme(data) == Some(DEFAULT_THEME)
    ensures Theme(data).Some? ==> Theme(data).value != ""
    ensures "theme" in data && data["theme"].JString? && StripSpace(data["theme"].s) != "" ==>
      Theme(data) == Some(StripSpace(data["theme"].s))
    ensures Theme(data).None? <==> "theme" in data && Truthy(data["theme"]) && !data["theme"].JString?
  {
    if "theme" in data && data["theme"].JString? && All(data["theme"].s, IsSpace) {
      BlankStripsToEmpty(data["theme"].s);
    }
  }

  /** A blank characterName is NOT replaced by "Hero": only a missing or falsy one is */
  lemma BlankNameStaysEmpty(data: map<string, JsonValue>, s: string, falsy: JsonValue)
    requires s != "" && All(s, IsSpace)
    ensures TextField(data["characterName" := JString(s)], "characterName", DEFAULT_NAME) == Some("")
    ensures TextField(data - {"characterName"}, "characterName", DEFAULT_NAME) == Some(DEFAULT_NAME)
    ensures !Truthy(falsy) ==> TextField(data["characterName" := falsy], "characterName", DEFAULT_NAME) == Some(DEFAULT_NAME)
  {
    BlankStripsToEmpty(s);
  }

  /** A missing, falsy or blank userAction is refused: continue-story sees an empty action */
  lemma BlankActionIsRefused(body: JsonValue)
    requires ContinueFields(body).Some?
    requires var data := RequestData(body).value;
      || "userAction" !in data
      || !Truthy(data["userAction"])
      || (data["userAction"].JString? && All(data["userAction"].s, IsSpace))
    ensures ContinueFields(body).value.userAction == ""
  {
    var data := RequestData(body).value;
    if "userAction" in data && data["userAction"].JString? && All(data["userAction"].s, IsSpace) {
      BlankStripsToEmpty(data["userAction"].s);
    }
  }

  /** The prompt ends with the handler's instruction and starts with the genre preamble */
  lemma PromptLayout(genre: string, hint: string, instruction: string)
    ensures var p := FullPrompt(genre, hint, instruction);
      && p[|p| - |instruction|..] == instruction
      && p[..|PROMPT_PREAMBLE| + |genre|] == PROMPT_PREAMBLE + genre
  {
    var p := FullPrompt(genre, hint, instruction);
    assert p == (PROMPT_PREAMBLE + genre) + (". " + hint + "\n\n") + instruction;
  }
}
