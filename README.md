# Interactive AI story backend: a verified model

This project models the core of the Flask backend of an interactive storytelling game (`app.py`).
The backend sends prompts to a hosted Gemini model and turns the replies into story text and a
suggested protagonist. The model covers four parts:

- **Character parsing** (`parse_character_response`). The reply is stripped. The parser then takes
  the leftmost brace block that mentions `"name"` and then `"personality"` and decodes it as JSON.
  If there is no such block, or it does not decode, the parser scans the reply line by line and the
  last line that sets a field wins. The regular expression is modelled as a leftmost brace-free
  span whose keys match ignoring ASCII case (the few non-ASCII case folds of `re.IGNORECASE` are
  not modelled). `json.loads` is an abstract decoder. The line scan is a method with a `for` loop,
  proved against a reference function.
- **Generation** (`get_client`, `_call_gemini`, `_is_rate_limit`, `generate`). The provider is an
  oracle: it maps the attempt number and the prompt to a reply. What `generate` does to the world
  is returned as a trace of events: requests sent, and seconds slept.
  - At most two requests are sent, both with the same model and prompt.
  - The second request happens exactly when the first one raised a rate-limit error.
  - Every failure comes back wrapped as `Story engine error: <message>`.
- **Handlers** (`suggest-character`, `start-story`, `continue-story`). These are methods that:
  - take the decoded request body, the API key from the environment, the provider and the debug flag;
  - normalise the fields, build the exact prompt text and call `Generate`;
  - return the status and the JSON body of the reply. `Unhandled` stands for an exception that no
    `except` clause catches, which the framework turns into its 500 page.
- **Python string semantics** that the code depends on:
  - `str.strip()` and its whitespace set, and `strip('"')`;
  - `lower()` and `upper()`;
  - substring `in`;
  - `split("\n")` and `split(":", 1)[-1]`.

Modules: `Wrappers` (Option, Result), `Strings`, `Json` (JSON values and Python truthiness),
`CharacterParser`, `Generation`, `Handlers`.

## Behaviour worth noting

- **A missing API key gives 503, not 400.** `get_client` raises its `ValueError` inside the `try`
  of `generate` (app.py:58-59), which re-raises it as a `RuntimeError` (app.py:74-76). Every request that
  reaches `generate` therefore gets 503 "Story engine is busy; try again.", with the credential
  message only in the debug detail. A blank action in `continue_story` is refused with 400 before
  that (app.py:181-182), and a body whose `.get` or `.strip()` raises is unhandled.
  - `Generation.MissingKeyIsEngineError` and the handlers' contracts state this.
  - In the model the `ValueError` branch of `suggest_character` (app.py:132-134) is unreachable.
    In Python it can still be reached through a `ValueError` from `json.loads` that is not a
    `JSONDecodeError` (see "## Left out").
- **A suggestion can have empty or non-string fields.**
  - On the line scan, a line such as `Name:` gives the empty name (app.py:98,
    `CharacterParser.EmptyTaggedValue`).
  - On the JSON path, `obj.get` returns whatever JSON value the object holds, for example a number
    (app.py:88-89). The model's `Character` therefore holds JSON values.
- **The fallback personality is the stripped reply.** `raw` is reassigned to `raw.strip()` before
  it becomes the default personality (app.py:81, 95).
- **Only a falsy request body counts as an empty mapping** (`request.get_json() or {}`, app.py:121,
  149, 175).
  - A truthy body that is not an object, for example a non-empty list, makes `.get` raise.
  - A truthy field value that is not a string, for example a number, makes `.strip()` raise.
  - No `except` clause catches either, so both give `Unhandled`.
- **A blank character name becomes `""`, not "Hero".** The `or "Hero"` default applies before the
  strip (app.py:151, 177), so only a missing or falsy name becomes "Hero"
  (`Handlers.BlankNameStaysEmpty`).
- **The suggest prompt doubles its braces.** The second literal of the suggest-character prompt is
  not an f-string (app.py:126), so its `{{` and `}}` are sent to the model doubled.

## Model

| member | source | states |
|---|---|---|
| Strings.StripIsTrimmed | app.py:81 | `strip` returns `r` exactly when `r` is a slice of the input with only dropped characters before and after it and no dropped character at its own ends (existence and uniqueness) |
| Strings.StripAround | app.py:98 | any number of dropped characters on both sides of a text whose ends are kept are all removed, and the text is returned whole |
| Strings.Lower | app.py:97 | `lower()` keeps the length and lower-cases each character in place |
| Strings.Upper | app.py:51 | `upper()` keeps the length and upper-cases each character in place |
| Strings.IndexOf | app.py:52 | the result is an occurrence of the pattern at or after the start, and no earlier occurrence exists; None means there is no occurrence at all |
| Strings.ContainsMeaning | app.py:97 | `pat in s` holds exactly when `pat` occurs at some index of `s` |
| Strings.ContainsChar | app.py:97 | `":" in line` holds exactly when the character is one of the line's characters |
| Strings.Split | app.py:96 | `split("\n")` gives at least one piece, no piece holds the separator, and joining the pieces with it gives the input back |
| Strings.SplitJoin | app.py:96 | splitting a join of separator-free pieces gives the same pieces back |
| Strings.SplitCons | app.py:96 | a first line without the separator comes out as the first piece, followed by the split of the rest |
| Strings.AfterFirst | app.py:98 | `split(":", 1)[-1]`: the whole line when it has no colon, otherwise the suffix after the first colon, with no colon before that one |
| Strings.AfterFirstSeparator | app.py:98 | for a head without a colon, the text after `head:` is exactly what follows that colon, colons included |
| CharacterParser.HasKeysInOrderMeaning | app.py:83 | the executable keyword test holds exactly when `"name"` and, later and without overlap, `"personality"` occur in the block, in any case |
| CharacterParser.MatchAtIff | app.py:83 | the pattern matches from `{` at `i` exactly when the first brace after `i` is a `}` and the text between holds both keys in order |
| CharacterParser.MatchEndIsDetermined | app.py:83 | two matches with the same start have the same end |
| CharacterParser.SearchFromIsLeftmost | app.py:83 | the search returns a match, and every match at or after the start begins no earlier than the one returned |
| CharacterParser.JsonBlockIsLeftmostMatch | app.py:83 | `re.search` returns the leftmost match, and returns None only when no match exists |
| CharacterParser.JsonCharacterFromLeftmost | app.py:83-92 | for the leftmost match, a decode failure falls through to the line scan, and a decoded object gives each field, or its own default ("Hero", "Brave and curious.") independently |
| CharacterParser.JsonCharacterWithoutMatch | app.py:83-84 | without any match the JSON path yields nothing |
| CharacterParser.ParseCharacterResponse | app.py:79-101 | the method returns the JSON path's character when there is one, otherwise the line scan's result on the stripped reply |
| CharacterParser.ScanLines | app.py:93-101 | the loop leaves each field with the value of the last line that sets it, or "Hero" and the whole stripped reply |
| CharacterParser.LastFieldStep | app.py:96-100 | one more line either sets the field to its value or leaves the previous value |
| CharacterParser.LastFieldNone | app.py:94-100 | the field keeps its default exactly when no line sets it |
| CharacterParser.LastFieldIsLast | app.py:96-100 | last line wins: the value comes from the last line that sets the field, whatever earlier lines said |
| CharacterParser.FallbackDefaults | app.py:94-95 | with no line naming a field, the name is "Hero" and the personality is the whole stripped reply, each independently |
| CharacterParser.FieldValueMeaning | app.py:98 | a value is the text after the first colon, whitespace-stripped, then with every leading and trailing double quote removed, so it neither starts nor ends with one |
| CharacterParser.FieldValueAfterFirstColon | app.py:98 | the value is taken after the first colon; later colons stay in the value |
| CharacterParser.SetsFieldIgnoresCase | app.py:97-99 | two lines that agree once lower-cased set the same fields |
| CharacterParser.TaggedLineSetsField | app.py:97 | a line `Tag: ...` whose tag lower-cases to the key sets that field (for example `Name:` or `NAME:`) |
| CharacterParser.TaggedLineValue | app.py:98 | after the colon, the whitespace before and after the quoted value and any number of double quotes on both sides of it are removed, and the value is recovered whole |
| CharacterParser.EmptyTaggedValue | app.py:98 | a tagged line with only whitespace after its colon sets the field to the empty text |
| CharacterParser.OneLineSetsBoth | app.py:96-100 | a line that mentions both keys, with no later line setting either, gives both fields its value |
| CharacterParser.NoBraceNoJson | app.py:81-84 | a reply without `{` is decided by the line scan alone |
| CharacterParser.ReplyWithoutColon | app.py:94-101 | a reply with no colon and no brace gives "Hero" and the whole stripped reply |
| CharacterParser.FieldsOnSeparateLines | app.py:94-101 | a name line followed by a personality line gives each field the value of its own line |
| Generation.CallGemini | app.py:37-46 | a raised error propagates with its message; present text comes back stripped; absent text gives "" |
| Generation.EngineError | app.py:76 | the wrapped error is "Story engine error: " followed by the original message |
| Generation.EngineErrorInjective | app.py:76 | wrapping keeps the original message recoverable: different messages give different errors |
| Generation.GenerateOutcome | app.py:55-76 | no request without a client; then one request, or request, 45-second sleep and the identical request; the retry happens exactly when the first attempt raised a rate-limit error; every failure, a missing key included, is wrapped; the result is the last attempt's |
| Generation.Generate | app.py:55-76 | the method sends the prompt `You are a narrative engine... Genre: {genre}. {hint}\n\n{prompt}`, and its result and trace of effects are those of the retry policy |
| Generation.MissingKeyIsEngineError | app.py:58-76 | a missing or empty key yields the wrapped error "Story engine error: GEMINI_API_KEY environment variable is not set" and sends nothing |
| Generation.NoRetryWithoutRateLimit | app.py:65-73 | a first error that is not a rate limit fails at once, with at most one request |
| Generation.RetryRecovers | app.py:67-72 | after a rate-limited first attempt, the trace is request, 45-second sleep, request, and the second answer, stripped, is the result |
| Generation.RateLimitIgnoresCase | app.py:49-52 | the rate-limit test gives the same verdict on a message and on its upper-cased form |
| Generation.MarkerInAnyCase | app.py:49-52 | "429", "RESOURCE_EXHAUSTED" or "QUOTA" anywhere in the message, in any case, makes it a rate-limit error |
| Generation.LowercaseQuotaIsRateLimit | app.py:51-52 | a message starting with lower-case "quota" counts as a rate limit |
| Handlers.ErrorResponse | app.py:104-109 | the body always has "error" with the message; it has "detail" exactly when one is given; there are no other keys; the status is the one given |
| Handlers.CharacterReply | app.py:128-142 | 200 with exactly the parsed name and personality, or 503 "busy" when generation failed |
| Handlers.OpeningReply | app.py:159-168 | 200 with `opening` set to the generated text, or to "Something begins..." when that text is empty; 503 "busy" exactly when generation failed |
| Handlers.SegmentReply | app.py:190-203 | 200 with `segment` set to the generated text, or to "The story continues..." when that text is empty; 503 "busy" exactly when generation failed |
| Handlers.SuggestCharacter | app.py:117-142 | for a body whose fields read cleanly, one `generate` with the character prompt, then the parsed character or 503; a body whose `.get` or `.strip()` raises gives the unhandled failure with nothing sent; a missing key gives 503, never 400 |
| Handlers.StartStory | app.py:145-168 | one `generate` with the opening prompt built from the normalised fields, then the opening or its placeholder, or 503; a missing key gives 503 with nothing sent |
| Handlers.ContinueStory | app.py:171-203 | an empty normalised action gives 400 "No action provided." and sends nothing; otherwise one `generate` with the continuation prompt and the character hint; 400 happens only with an empty trace |
| Handlers.BlankStripsToEmpty | app.py:180 | a text made only of whitespace strips to "" |
| Handlers.ThemeDefaulting | app.py:122 | the theme is "adventure" when missing, falsy or blank, and otherwise the stripped text; it is never empty; it fails only for a truthy non-string value |
| Handlers.BlankNameStaysEmpty | app.py:151 | a whitespace-only `characterName` becomes ""; a missing or falsy one becomes "Hero" |
| Handlers.BlankActionIsRefused | app.py:180-182 | a missing, falsy or blank `userAction` normalises to the empty action that is refused |
| Handlers.PromptLayout | app.py:60-63 | the full prompt starts with the genre preamble and ends with the handler's instruction |

## Left out

- HTTP and Flask are not modelled: routing, `request.get_json()` parsing of the raw bytes, `jsonify`, the `index` page and `app.run`. A handler receives the already-decoded JSON body.
- Logging is not modelled, because it has no effect on results.
- `load_dotenv` and `os.environ` are not modelled. The key is a parameter, `None` when unset.
- `app.debug` is a parameter of the handlers.
- The Gemini SDK and the network are an oracle. Importing `google.genai` and constructing the client beyond the key check are not modelled. A response object is taken to be truthy, with its `text` either absent or a string.
- `time.sleep(45)` is recorded as a `Slept(45)` event in the trace. No clock is modelled.
- `json.loads` is an abstract decoder. It returns the decoded object or reports a `JSONDecodeError`. Other exceptions it could raise are not modelled: `RecursionError` on very deeply nested arrays, which is a `RuntimeError` subclass and so would reach the `except RuntimeError` clause and answer 503 through app.py:135-142; and the plain `ValueError` that CPython 3.11 and later raise for an integer literal longer than the 4300-digit conversion limit. That `ValueError` is not a `JSONDecodeError`, so app.py:91 does not catch it, and `suggest_character` would answer 400 through app.py:132-134. The model has no such path.
- Strings.Lower: maps ASCII letters only. Python's full Unicode case mapping is not modelled. That mapping can change the length (`"ß".upper() == "SS"`) and can map non-ASCII letters onto ASCII ones (the Kelvin sign lower-cases to `k`).
- Strings.Upper: maps ASCII letters only, for the same reason as Strings.Lower.
- CharacterParser.KeysInOrder: compares case-insensitively on ASCII letters only. The extra case folding that `re.IGNORECASE` applies to a few non-ASCII characters is not modelled.
- Exceptions outside `Exception` (`KeyboardInterrupt`, `SystemExit`) are not modelled.
- Requests served in parallel by the threaded server are not modelled.
- Handlers.TextField: assumes the default text has no surrounding whitespace, so stripping it is the identity. All the defaults the handlers use satisfy this.
