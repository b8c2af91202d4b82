/**
 * `parse_character_response`: turns the model's reply to the character prompt into a
 * name and a personality. It first looks for a brace block mentioning "name" and then
 * "personality" and decodes it as JSON; failing that it scans the reply line by line,
 * the last matching line winning for each field. It never fails.
 */
module CharacterParser {
  import opened Wrappers
  import opened Strings
  import opened Json

  const DEFAULT_NAME: string := "Hero"
  const DEFAULT_PERSONALITY: string := "Brave and curious."
  const NAME_KEY: string := "\"name\""
  const PERSONALITY_KEY: string := "\"personality\""

  /** The parser's result; on the JSON path a field holds whatever JSON value the reply gave */
  datatype Character = Character(name: JsonValue, personality: JsonValue)

  /** `json.loads` on the matched block: the decoded object, or None for a JSONDecodeError */
  type Decoder = string -> Option<map<string, JsonValue>>

  // ---------------------------------------------------------------------------
  // The search for the JSON block: re.search of
  //   \{[^{}]*"name"[^{}]*"personality"[^{}]*\}   with IGNORECASE and DOTALL
  // ---------------------------------------------------------------------------

  /** The characters the class `[^{}]` excludes */
  predicate IsBrace(c: char) {
    c == '{' || c == '}'
  }

  ghost predicate BraceFree(m: string) {
    forall i :: 0 <= i < |m| ==> !IsBrace(m[i])
  }

  /** `"name"` and later, without overlap, `"personality"` occur in `m`, ignoring case */
  ghost predicate KeysInOrder(m: string) {
    exists p, q ::
      && p + |NAME_KEY| <= q
      && OccursAt(Lower(m), NAME_KEY, p)
      && OccursAt(Lower(m), PERSONALITY_KEY, q)
  }

  /** The pattern matches `s[i..j]` exactly */
  ghost predicate MatchAt(s: string, i: int, j: int) {
    && 0 <= i && i + 2 <= j <= |s|
    && s[i] == '{' && s[j - 1] == '}'
    && BraceFree(s[i + 1..j - 1])
    && KeysInOrder(s[i + 1..j - 1])
  }

  /** Decides KeysInOrder: the first `"name"` leaves the most room for a `"personality"` after it */
  function HasKeysInOrder(m: string): bool {
    var low := Lower(m);
    match IndexOf(low, NAME_KEY, 0)
    case None => false
    case Some(p) => IndexOf(low, PERSONALITY_KEY, p + |NAME_KEY|).Some?
  }

  lemma HasKeysInOrderMeaning(m: string)
    ensures HasKeysInOrder(m) <==> KeysInOrder(m)
  {
    var low := Lower(m);
    var first := IndexOf(low, NAME_KEY, 0);
    if first.Some? {
      var second := IndexOf(low, PERSONALITY_KEY, first.value + |NAME_KEY|);
      if second.Some? {
        assert OccursAt(low, NAME_KEY, first.value) && OccursAt(low, PERSONALITY_KEY, second.value);
      }
    }
    if KeysInOrder(m) {
      var p, q :| p + |NAME_KEY| <= q && OccursAt(low, NAME_KEY, p) && OccursAt(low, PERSONALITY_KEY, q);
      assert first.Some? && first.value <= p;
    }
  }

  /** Index of the first brace at or after `from` */
  function NextBrace(s: string, from: nat): (r: Option<nat>)
    requires from <= |s|
    decreases |s| - from
    ensures r.Some? ==> from <= r.value < |s| && IsBrace(s[r.value])
  {
    if from == |s| then None
    else if IsBrace(s[from]) then Some(from)
    else NextBrace(s, from + 1)
  }

  /** The brace found at `k` is the first one: everything before it is brace-free */
  lemma {:induction false} NextBraceIs(s: string, from: nat, k: nat)
    requires from <= k < |s| && IsBrace(s[k]) && BraceFree(s[from..k])
    ensures NextBrace(s, from) == Some(k)
    decreases k - from
  {
    if from < k {
      assert s[from] == s[from..k][0];
      assert s[from + 1..k] == s[from..k][1..];
      NextBraceIs(s, from + 1, k);
    }
  }

  lemma {:induction false} NextBraceSkipsBraceFree(s: string, from: nat)
    requires from <= |s|
    ensures NextBrace(s, from).Some? ==> BraceFree(s[from..NextBrace(s, from).value])
    decreases |s| - from
  {
    if from < |s| && !IsBrace(s[from]) {
      NextBraceSkipsBraceFree(s, from + 1);
      var r := NextBrace(s, from + 1);
      if r.Some? {
        assert s[from..r.value] == [s[from]] + s[from + 1..r.value];
      }
    }
  }

  /** A match starting at `i` ends at the first brace after `i`, which must be a `}` */
  lemma MatchAtIff(s: string, i: nat, j: int)
    requires i < |s|
    ensures MatchAt(s, i, j) <==>
      && s[i] == '{'
      && NextBrace(s, i + 1) == Some(j - 1)
      && s[j - 1] == '}'
      && HasKeysInOrder(s[i + 1..j - 1])
  {
    if MatchAt(s, i, j) {
      MatchEndsAtNextBrace(s, i, j);
    }
    if s[i] == '{' && NextBrace(s, i + 1) == Some(j - 1) && s[j - 1] == '}' {
      NextBraceSkipsBraceFree(s, i + 1);
      HasKeysInOrderMeaning(s[i + 1..j - 1]);
    }
  }

  lemma MatchEndsAtNextBrace(s: string, i: nat, j: int)
    requires MatchAt(s, i, j)
    ensures NextBrace(s, i + 1) == Some(j - 1) && HasKeysInOrder(s[i + 1..j - 1])
  {
    NextBraceIs(s, i + 1, j - 1);
    HasKeysInOrderMeaning(s[i + 1..j - 1]);
  }

  /** re.search at or after `from`: start and end of the leftmost match */
  function SearchFrom(s: string, from: nat): (r: Option<(nat, nat)>)
    requires from <= |s|
    decreases |s| - from
    ensures r.Some? ==> from <= r.value.0 && r.value.0 + 2 <= r.value.1 <= |s|
  {
    if from == |s| then None
    else if s[from] == '{' then
      match NextBrace(s, from + 1)
      case Some(k) =>
        if s[k] == '}' && HasKeysInOrder(s[from + 1..k]) then Some((from, k + 1))
        else SearchFrom(s, from + 1)
      case None => SearchFrom(s, from + 1)
    else SearchFrom(s, from + 1)
  }

  /** What `re.search(pattern, t)` returns: the span of the match, if any */
  function JsonBlock(t: string): (r: Option<(nat, nat)>)
    ensures r.Some? ==> r.value.0 + 2 <= r.value.1 <= |t|
  {
    SearchFrom(t, 0)
  }

  /** One step of the search: either a match starts at `from`, or none does and the search moves on */
  lemma SearchFromStep(s: string, from: nat)
    requires from < |s|
    ensures var r := SearchFrom(s, from);
      if r.Some? && r.value.0 == from then MatchAt(s, from, r.value.1)
      else r == SearchFrom(s, from + 1) && forall j :: !MatchAt(s, from, j)
  {
    var r := SearchFrom(s, from);
    if r.Some? && r.value.0 == from {
      MatchAtIff(s, from, r.value.1);
    } else {
      forall j ensures !MatchAt(s, from, j) {
        MatchAtIff(s, from, j);
      }
    }
  }

  /** SearchFrom finds a match, and no match starts before it */
  lemma {:induction false} SearchFromIsLeftmost(s: string, from: nat)
    requires from <= |s|
    ensures SearchFrom(s, from).Some? ==> MatchAt(s, SearchFrom(s, from).value.0, SearchFrom(s, from).value.1)
    ensures forall i, j :: from <= i && MatchAt(s, i, j) ==>
      SearchFrom(s, from).Some? && SearchFrom(s, from).value.0 <= i
    decreases |s| - from
  {
    if from < |s| {
      SearchFromIsLeftmost(s, from + 1);
      SearchFromStep(s, from);
    }
  }

  /** Leftmost-match semantics of re.search, stated on the whole reply */
  lemma JsonBlockIsLeftmostMatch(t: string)
    ensures JsonBlock(t).Some? ==> MatchAt(t, JsonBlock(t).value.0, JsonBlock(t).value.1)
    ensures JsonBlock(t).Some? ==> forall i, j :: 0 <= i < JsonBlock(t).value.0 ==> !MatchAt(t, i, j)
    ensures JsonBlock(t).None? ==> forall i, j :: !MatchAt(t, i, j)
  {
    SearchFromIsLeftmost(t, 0);
    forall i, j | i < 0 ensures !MatchAt(t, i, j) { }
  }

  /** `obj.get(key, default)` */
  function Get(obj: map<string, JsonValue>, key: string, default: string): JsonValue {
    if key in obj then obj[key] else JString(default)
  }

  /** The JSON path: the decoded leftmost block, or None when there is no block or it does not decode */
  function JsonCharacter(t: string, decode: Decoder): Option<Character> {
    match JsonBlock(t)
    case None => None
    case Some((i, j)) =>
      match decode(t[i..j])
      case None => None
      case Some(obj) => Some(Character(Get(obj, "name", DEFAULT_NAME), Get(obj, "personality", DEFAULT_PERSONALITY)))
  }

  // ---------------------------------------------------------------------------
  // The line-scan fallback
  // ---------------------------------------------------------------------------

  /** The line mentions `key` in any case and has a colon */
  predicate SetsField(line: string, key: string) {
    Contains(Lower(line), key) && Contains(line, ":")
  }

  /** `line.split(":", 1)[-1].strip().strip('"')` */
  function FieldValue(line: string): string {
    Strip(StripSpace(AfterFirst(line, ':')), IsQuote)
  }

  /** The value given by the last line that sets `key`, if any line does */
  function LastField(lines: seq<string>, key: string): Option<string> {
    if lines == [] then None
    else if SetsField(lines[|lines| - 1], key) then Some(FieldValue(lines[|lines| - 1]))
    else LastField(lines[..|lines| - 1], key)
  }

  /** What the line scan produces for the stripped reply `t` */
  function FallbackCharacter(t: string): Character {
    var lines := Split(t, '\n');
    Character(
      JString(LastField(lines, "name").GetOr(DEFAULT_NAME)),
      JString(LastField(lines, "personality").GetOr(t)))
  }

  /** One more line: it either sets the field or leaves the previous value */
  lemma LastFieldStep(lines: seq<string>, i: nat, key: string)
    requires i < |lines|
    ensures LastField(lines[..i + 1], key) ==
      if SetsField(lines[i], key) then Some(FieldValue(lines[i])) else LastField(lines[..i], key)
  {
    assert lines[..i + 1][..i] == lines[..i];
  }

  /** What `parse_character_response` returns: the JSON path if it yields a character, else the line scan */
  function ParsedCharacter(raw: string, decode: Decoder): Character {
    var t := StripSpace(raw);
    JsonCharacter(t, decode).GetOr(FallbackCharacter(t))
  }

  /** `parse_character_response` */
  method ParseCharacterResponse(raw: string, decode: Decoder) returns (c: Character)
    ensures c == ParsedCharacter(raw, decode)
  {
    var t := StripSpace(raw);
    var fromJson := JsonCharacter(t, decode);
    if fromJson.Some? {
      return fromJson.value;
    }
    c := ScanLines(t);
  }

  /** The fallback loop of `parse_character_response` over the stripped reply `t` */
  method ScanLines(t: string) returns (c: Character)
    ensures c == FallbackCharacter(t)
  {
    var name := DEFAULT_NAME;
    var personality := t;
    var lines := Split(t, '\n');
    for i := 0 to |lines|
      invariant name == LastField(lines[..i], "name").GetOr(DEFAULT_NAME)
      invariant personality == LastField(lines[..i], "personality").GetOr(t)
    {
      var line := lines[i];
      LastFieldStep(lines, i, "name");
      LastFieldStep(lines, i, "personality");
      if SetsField(line, "name") {
        name := FieldValue(line);
      }
      if SetsField(line, "personality") {
        personality := FieldValue(line);
      }
    }
    assert lines[..|lines|] == lines;
    c := Character(JString(name), JString(personality));
  }

  // ---------------------------------------------------------------------------
  // Properties
  // ---------------------------------------------------------------------------

  /** No line sets `key` exactly when LastField has nothing, so the default stays */
  lemma {:induction false} LastFieldNone(lines: seq<string>, key: string)
    ensures LastField(lines, key).None? <==> forall i :: 0 <= i < |lines| ==> !SetsField(lines[i], key)
  {
    if lines != [] {
      var init := lines[..|lines| - 1];
      LastFieldNone(init, key);
      assert forall i :: 0 <= i < |init| ==> init[i] == lines[i];
    }
  }

  /** Last line wins: the value comes from the last line that sets `key` */
  lemma {:induction false} LastFieldIsLast(lines: seq<string>, key: string, i: nat)
    requires i < |lines| && SetsField(lines[i], key)
    requires forall j :: i < j < |lines| ==> !SetsField(lines[j], key)
    ensures LastField(lines, key) == Some(FieldValue(lines[i]))
  {
    if i < |lines| - 1 {
      var init := lines[..|lines| - 1];
      assert init[i] == lines[i];
      assert forall j :: i < j < |init| ==> init[j] == lines[j];
      LastFieldIsLast(init, key, i);
    }
  }

  /** An extracted value has every leading and trailing quote removed from the whitespace-stripped text after the first colon */
  lemma FieldValueMeaning(line: string)
    ensures var after := AfterFirst(line, ':');
      && Trimmed(after, StripSpace(after), IsSpace)
      && Trimmed(StripSpace(after), FieldValue(line), IsQuote)
    ensures FieldValue(line) == [] || (FieldValue(line)[0] != '"' && FieldValue(line)[|FieldValue(line)| - 1] != '"')
  {
    var after := AfterFirst(line, ':');
    StripIsTrimmed(after, StripSpace(after), IsSpace);
    StripIsTrimmed(StripSpace(after), FieldValue(line), IsQuote);
    var lo :| TrimmedAt(StripSpace(after), FieldValue(line), lo, IsQuote);
  }

  /** The value is taken after the FIRST colon of the line */
  lemma FieldValueAfterFirstColon(head: string, rest: string)
    requires ':' !in head
    ensures FieldValue(head + ":" + rest) == Strip(StripSpace(rest), IsQuote)
  {
    assert head + ":" + rest == head + [':'] + rest;
    AfterFirstSeparator(head, rest, ':');
  }

  /** When no line names a field, the fallback gives "Hero" and the whole stripped reply */
  lemma FallbackDefaults(t: string)
    ensures (forall i :: 0 <= i < |Split(t, '\n')| ==> !SetsField(Split(t, '\n')[i], "name"))
      ==> FallbackCharacter(t).name == JString(DEFAULT_NAME)
    ensures (forall i :: 0 <= i < |Split(t, '\n')| ==> !SetsField(Split(t, '\n')[i], "personality"))
      ==> FallbackCharacter(t).personality == JString(t)
  {
    LastFieldNone(Split(t, '\n'), "name");
    LastFieldNone(Split(t, '\n'), "personality");
  }

  /** The JSON path takes the leftmost block; each field defaults on its own when the object lacks it */
  lemma JsonCharacterFromLeftmost(t: string, decode: Decoder, i: nat, j: nat)
    requires MatchAt(t, i, j)
    requires forall i', j' :: 0 <= i' < i ==> !MatchAt(t, i', j')
    ensures decode(t[i..j]).None? ==> JsonCharacter(t, decode).None?
    ensures decode(t[i..j]).Some? ==>
      var obj := decode(t[i..j]).value;
      JsonCharacter(t, decode) == Some(Character(
        if "name" in obj then obj["name"] else JString(DEFAULT_NAME),
        if "personality" in obj then obj["personality"] else JString(DEFAULT_PERSONALITY)))
  {
    JsonBlockIsLeftmostMatch(t);
    var b := JsonBlock(t);
    assert b.Some?;
    MatchEndIsDetermined(t, i, j, b.value.1);
  }

  /** Without a block that matches, the JSON path gives nothing and the line scan decides */
  lemma JsonCharacterWithoutMatch(t: string, decode: Decoder)
    requires forall i, j :: !MatchAt(t, i, j)
    ensures JsonCharacter(t, decode).None?
  {
    JsonBlockIsLeftmostMatch(t);
  }

  /** Two matches with the same start are the same match */
  lemma MatchEndIsDetermined(s: string, i: int, j: int, j': int)
    requires MatchAt(s, i, j) && MatchAt(s, i, j')
    ensures j == j'
  {
    MatchAtIff(s, i, j);
    MatchAtIff(s, i, j');
  }

  /** A reply without an opening brace never takes the JSON path */
  lemma NoBraceNoJson(t: string, decode: Decoder)
    requires '{' !in t
    ensures ParsedCharacter(t, decode) == FallbackCharacter(StripSpace(t))
  {
    var s := StripSpace(t);
    StripSpaceKeepsMissing(t, '{');
    forall i, j ensures !MatchAt(s, i, j) {
      if 0 <= i < |s| {
        assert s[i] != '{';
      }
    }
    JsonCharacterWithoutMatch(s, decode);
  }

  /** The keyword test ignores case: lines that agree once lower-cased set the same fields */
  lemma SetsFieldIgnoresCase(line: string, other: string, key: string)
    requires Lower(line) == Lower(other)
    ensures SetsField(line, key) <==> SetsField(other, key)
  {
    ContainsChar(line, ':');
    ContainsChar(other, ':');
    assert [':'] == ":";
    if ':' in line {
      var k :| 0 <= k < |line| && line[k] == ':';
      assert LowerChar(other[k]) == ':';
    }
    if ':' in other {
      var k :| 0 <= k < |other| && other[k] == ':';
      assert LowerChar(line[k]) == ':';
    }
  }

  /** One line can set both fields: when it is the last line mentioning either, both take its value */
  lemma OneLineSetsBoth(t: string, i: nat)
    requires var lines := Split(t, '\n');
      && i < |lines|
      && SetsField(lines[i], "name") && SetsField(lines[i], "personality")
      && forall j :: i < j < |lines| ==> !SetsField(lines[j], "name") && !SetsField(lines[j], "personality")
    ensures var v := JString(FieldValue(Split(t, '\n')[i]));
      FallbackCharacter(t) == Character(v, v)
  {
    LastFieldIsLast(Split(t, '\n'), "name", i);
    LastFieldIsLast(Split(t, '\n'), "personality", i);
  }

  /** A line of the form `Tag: ...` whose tag lower-cases to the key sets that field */
  lemma TaggedLineSetsField(tag: string, rest: string, key: string)
    requires Lower(tag) == key
    ensures SetsField(tag + ":" + rest, key)
  {
    var line := tag + ":" + rest;
    assert line[|tag|] == ':';
    assert [':'] == ":";
    ContainsChar(line, ':');
    assert Lower(line)[..|tag|] == Lower(tag);
    assert OccursAt(Lower(line), key, 0);
    ContainsMeaning(Lower(line), key);
  }

  /**
   * After the first colon, the whitespace on both sides goes, then every double quote at
   * either end: a value with no space or quote at its ends is recovered whole.
   */
  lemma {:induction false} TaggedLineValue(tag: string, pad: string, opening: string, value: string, closing: string, trail: string)
    requires ':' !in tag && All(pad, IsSpace) && All(trail, IsSpace)
    requires All(opening, IsQuote) && All(closing, IsQuote)
    requires value != [] && !IsSpace(value[0]) && !IsSpace(value[|value| - 1])
    requires !IsQuote(value[0]) && !IsQuote(value[|value| - 1])
    ensures FieldValue(tag + ":" + pad + opening + value + closing + trail) == value
  {
    var quoted := opening + value + closing;
    QuotedEndsAreNotSpace(opening, value, closing);
    var rest := pad + quoted + trail;
    TaggedLineShape(tag, pad, opening, value, closing, trail);
    FieldValueAfterFirstColon(tag, rest);
    StripAround(pad, quoted, trail, IsSpace);
    StripAround(opening, value, closing, IsQuote);
  }

  lemma TaggedLineShape(tag: string, pad: string, opening: string, value: string, closing: string, trail: string)
    ensures tag + ":" + pad + opening + value + closing + trail
         == tag + ":" + (pad + (opening + value + closing) + trail)
  {
    AppendAssoc(tag + ":" + pad, opening, value);
    AppendAssoc(tag + ":" + pad, opening + value, closing);
    AppendAssoc(tag + ":" + pad, opening + value + closing, trail);
    AppendAssoc(tag + ":", pad, opening + value + closing);
    AppendAssoc(tag + ":", pad + (opening + value + closing), trail);
  }

  /** Quotes around a value that does not start or end with a space leave no space at the ends */
  lemma {:induction false} QuotedEndsAreNotSpace(opening: string, value: string, closing: string)
    requires All(opening, IsQuote) && All(closing, IsQuote)
    requires value != [] && !IsSpace(value[0]) && !IsSpace(value[|value| - 1])
    ensures var quoted := opening + value + closing;
      quoted != [] && !IsSpace(quoted[0]) && !IsSpace(quoted[|quoted| - 1])
  {
    var quoted := opening + value + closing;
    if opening != [] { assert quoted[0] == opening[0]; } else { assert quoted[0] == value[0]; }
    if closing != [] { assert quoted[|quoted| - 1] == closing[|closing| - 1]; }
    else { assert quoted[|quoted| - 1] == value[|value| - 1]; }
  }

  /** The stripped text keeps only characters of the reply */
  lemma StripSpaceKeepsMissing(raw: string, c: char)
    requires c !in raw
    ensures c !in StripSpace(raw)
  {
    var s := StripSpace(raw);
    StripIsTrimmed(raw, s, IsSpace);
    var lo :| TrimmedAt(raw, s, lo, IsSpace);
    forall i | 0 <= i < |s| ensures s[i] != c {
      assert s[i] == raw[lo + i];
    }
  }

  /** A reply with no colon sets no field: the name is "Hero" and the personality the whole stripped reply */
  lemma ReplyWithoutColon(raw: string, decode: Decoder)
    requires ':' !in raw && '{' !in raw
    ensures ParsedCharacter(raw, decode) == Character(JString(DEFAULT_NAME), JString(StripSpace(raw)))
  {
    var t := StripSpace(raw);
    NoBraceNoJson(raw, decode);
    StripSpaceKeepsMissing(raw, ':');
    var lines := Split(t, '\n');
    MissingFromJoin(lines, '\n', ':');
    assert [':'] == ":";
    forall i | 0 <= i < |lines| ensures !SetsField(lines[i], "name") && !SetsField(lines[i], "personality") {
      ContainsChar(lines[i], ':');
    }
    FallbackDefaults(t);
  }

  /** Two lines joined by a newline split back into those lines, and bring no brace with them */
  lemma TwoLines(first: string, second: string)
    requires '\n' !in first && '\n' !in second && '{' !in first && '{' !in second
    ensures '{' !in first + "\n" + second
    ensures Split(first + "\n" + second, '\n') == [first, second]
  {
    var raw := first + "\n" + second;
    assert raw == first + ['\n'] + second;
    forall i | 0 <= i < |raw| ensures raw[i] != '{' {
      if i < |first| { assert raw[i] == first[i]; }
      else if i > |first| { assert raw[i] == second[i - |first| - 1]; }
    }
    SplitCons(first, second, '\n');
    SplitWithoutSeparator(second, '\n');
  }

  /** Two brace-free lines with no space at the outer ends are parsed by the line scan alone */
  lemma TwoLinesSkipJson(first: string, second: string, decode: Decoder)
    requires '\n' !in first && '\n' !in second && '{' !in first && '{' !in second
    requires first != [] && !IsSpace(first[0]) && second != [] && !IsSpace(second[|second| - 1])
    ensures ParsedCharacter(first + "\n" + second, decode) == FallbackCharacter(first + "\n" + second)
  {
    var raw := first + "\n" + second;
    TwoLines(first, second);
    NoBraceNoJson(raw, decode);
    assert raw[0] == first[0] && raw[|raw| - 1] == second[|second| - 1];
    StripKeeps(raw, IsSpace);
  }

  /** The line scan over a name line followed by a personality line takes each field from its own line */
  lemma TwoLinesFallback(first: string, second: string)
    requires '\n' !in first && '\n' !in second && '{' !in first && '{' !in second
    requires SetsField(first, "name") && !SetsField(first, "personality")
    requires SetsField(second, "personality") && !SetsField(second, "name")
    ensures FallbackCharacter(first + "\n" + second) == Character(JString(FieldValue(first)), JString(FieldValue(second)))
  {
    TwoLines(first, second);
    LastFieldIsLast([first, second], "name", 0);
    LastFieldIsLast([first, second], "personality", 1);
  }

  /** A name line followed by a personality line: each field comes from its own line */
  lemma FieldsOnSeparateLines(first: string, second: string, decode: Decoder)
    requires '\n' !in first && '\n' !in second && '{' !in first && '{' !in second
    requires first != [] && !IsSpace(first[0]) && second != [] && !IsSpace(second[|second| - 1])
    requires SetsField(first, "name") && !SetsField(first, "personality")
    requires SetsField(second, "personality") && !SetsField(second, "name")
    ensures ParsedCharacter(first + "\n" + second, decode) ==
      Character(JString(FieldValue(first)), JString(FieldValue(second)))
  {
    TwoLinesSkipJson(first, second, decode);
    TwoLinesFallback(first, second);
  }

  /** A tagged line with nothing after its colon sets the field to the empty text */
  lemma EmptyTaggedValue(tag: string, pad: string)
    requires ':' !in tag && All(pad, IsSpace)
    ensures FieldValue(tag + ":" + pad) == ""
  {
    calc {
      FieldValue(tag + ":" + pad);
      { FieldValueAfterFirstColon(tag, pad); }
      Strip(StripSpace(pad), IsQuote);
      { assert pad == pad + [] + []; StripAround(pad, [], [], IsSpace); }
      Strip([], IsQuote);
      { StripKeeps([], IsQuote); }
      "";
    }
  }
}
