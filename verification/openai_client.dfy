/** `OpenAiClient.SendChatAsync`: the API-key guard, the steering text built
    from the model settings, the two-message request and the choice of the
    reply string. The HTTP exchange itself is a parameter. */
module OpenAiClient {
  import opened Wrappers
  import opened Text

  /** `Environment.NewLine`, taken to be a line feed. */
  const NewLine := "\n"
  const KeyMissingMessage := "OPENAI_API_KEY not set in environment variables."
  const SteeringHeader := "\nSteering instructions for model:\n"
  const NoResponseMessage := "No response from OpenAI."
  /** The default model name; its hyphen is U+2011, a non-breaking hyphen. */
  const DefaultModel := "GPT\U{2011}4o Mini"

  /** An `ExtraBody` value: a string-to-string dictionary, or any other object
      as its `ToString()` rendering. */
  datatype ExtraValue = StringMap(entries: seq<(string, string)>) | OtherValue(rendered: string)

  /** `ModelSettings`; dictionaries are their entries in enumeration order,
      `None` is null. */
  datatype ModelSettings = ModelSettings(
    reasoning: Option<seq<(string, string)>>,
    extraBody: Option<seq<(string, ExtraValue)>>)

  /** One `Reasoning.{key}: {value}.` line per entry, in order. */
  function ReasoningLines(entries: seq<(string, string)>): (ls: seq<string>)
    ensures |ls| == |entries|
    ensures forall i :: 0 <= i < |entries| ==>
      ls[i] == "Reasoning." + entries[i].0 + ": " + entries[i].1 + "."
  {
    if |entries| == 0 then []
    else ["Reasoning." + entries[0].0 + ": " + entries[0].1 + "."] + ReasoningLines(entries[1..])
  }

  /** The lines of one `ExtraBody` entry: `{outer}.{inner}: {value}.` per
      inner pair of a string dictionary, else the single `{key}: {value}`
      with no trailing period. */
  function ExtraEntryLines(key: string, v: ExtraValue): (ls: seq<string>)
    ensures v.OtherValue? ==> ls == [key + ": " + v.rendered]
    ensures v.StringMap? ==> |ls| == |v.entries|
    ensures v.StringMap? ==> forall i :: 0 <= i < |v.entries| ==>
      ls[i] == key + "." + v.entries[i].0 + ": " + v.entries[i].1 + "."
  {
    match v
    case OtherValue(r) => [key + ": " + r]
    case StringMap(d) => DictionaryLines(key, d)
  }

  /** The lines of a string dictionary held under `ExtraBody` key `key`:
      one `{key}.{inner}: {value}.` line per inner pair, in order. */
  function DictionaryLines(key: string, d: seq<(string, string)>): (ls: seq<string>)
    ensures |ls| == |d|
    ensures forall i :: 0 <= i < |d| ==> ls[i] == key + "." + d[i].0 + ": " + d[i].1 + "."
  {
    if |d| == 0 then [] else [key + "." + d[0].0 + ": " + d[0].1 + "."] + DictionaryLines(key, d[1..])
  }

  /** The lines of all `ExtraBody` entries, entry by entry. */
  function ExtraBodyLines(entries: seq<(string, ExtraValue)>): seq<string> {
    if |entries| == 0 then [] else ExtraEntryLines(entries[0].0, entries[0].1) + ExtraBodyLines(entries[1..])
  }

  /** Every steering line, reasoning first. */
  function SteeringLines(ms: ModelSettings): seq<string> {
    (if ms.reasoning.Some? then ReasoningLines(ms.reasoning.value) else [])
      + (if ms.extraBody.Some? then ExtraBodyLines(ms.extraBody.value) else [])
  }

  /** The text of a `StringBuilder` that had `AppendLine` called once per line. */
  function AppendLines(lines: seq<string>): string {
    if |lines| == 0 then "" else lines[0] + NewLine + AppendLines(lines[1..])
  }

  function SteeringText(ms: ModelSettings): string {
    Trim(AppendLines(SteeringLines(ms)))
  }

  /** The system prompt actually sent: unchanged without settings or when
      the trimmed steering text is empty, otherwise the prompt, the steering
      header and the steering text. */
  function ComposeSystemPrompt(prompt: string, ms: Option<ModelSettings>): (r: string)
    ensures ms.None? ==> r == prompt
    ensures r == prompt <==> ms.None? || AllWhiteSpace(AppendLines(SteeringLines(ms.value)))
    ensures r != prompt ==> r == prompt + SteeringHeader + SteeringText(ms.value)
  {
    if ms.None? then prompt
    else
      var steering := SteeringText(ms.value);
      if steering != "" then
        assert |prompt + SteeringHeader + steering| > |prompt|;
        prompt + SteeringHeader + steering
      else prompt
  }

  datatype Message = Message(role: string, content: string)
  datatype ChatPayload = ChatPayload(model: string, messages: seq<Message>)

  /** The chat-completions request: the model and exactly two messages, the
      system prompt (with steering) first and the user prompt second. */
  function BuildPayload(systemPrompt: string, userPrompt: string, model: string, ms: Option<ModelSettings>): (p: ChatPayload)
    ensures p.model == model && |p.messages| == 2
    ensures p.messages[0] == Message("system", ComposeSystemPrompt(systemPrompt, ms))
    ensures p.messages[1] == Message("user", userPrompt)
  {
    ChatPayload(model, [Message("system", ComposeSystemPrompt(systemPrompt, ms)), Message("user", userPrompt)])
  }

  /** The HTTP exchange, as far as the reply selection reads it: a failure
      status (its name) with the body, or a success whose `choices` array
      may be missing and whose first message content may be null. */
  datatype ChatResponse =
    | HttpFailure(status: string, body: string)
    | HttpSuccess(choices: Option<seq<Option<string>>>)

  /** The string returned for a response. */
  function SelectReply(resp: ChatResponse): (r: string)
    ensures resp.HttpFailure? ==> r == "OpenAI error " + resp.status + ": " + resp.body
    ensures resp.HttpSuccess? && resp.choices.Some? && |resp.choices.value| > 0 ==>
      r == resp.choices.value[0].GetOr("")
    ensures resp.HttpSuccess? && (resp.choices.None? || |resp.choices.value| == 0) ==> r == NoResponseMessage
  {
    match resp
    case HttpFailure(status, body) => "OpenAI error " + status + ": " + body
    case HttpSuccess(choices) =>
      if choices.Some? && |choices.value| > 0 then
        match choices.value[0]
        case Some(m) => m
        case None => ""
      else NoResponseMessage
  }

  /** Only the first choice is read: successes that agree on it give the
      same answer, whatever else `choices` holds. */
  lemma OnlyFirstChoiceRead(c1: seq<Option<string>>, c2: seq<Option<string>>)
    requires |c1| > 0 && |c2| > 0 && c1[0] == c2[0]
    ensures SelectReply(HttpSuccess(Some(c1))) == SelectReply(HttpSuccess(Some(c2)))
  {
  }

  /** `SendChatAsync`, with the POST as the function `post`. */
  function SendChat(systemPrompt: string, userPrompt: string, apiKey: Option<string>, model: string,
                    ms: Option<ModelSettings>, post: ChatPayload -> ChatResponse): (r: string)
    ensures IsNullOrWhiteSpace(apiKey) ==> r == KeyMissingMessage
    ensures !IsNullOrWhiteSpace(apiKey) ==> r == SelectReply(post(BuildPayload(systemPrompt, userPrompt, model, ms)))
  {
    if IsNullOrWhiteSpace(apiKey) then KeyMissingMessage
    else SelectReply(post(BuildPayload(systemPrompt, userPrompt, model, ms)))
  }

  /** A missing or blank key answers without building or sending a request:
      the answer does not depend on the exchange at all. */
  lemma BlankKeySendsNothing(systemPrompt: string, userPrompt: string, apiKey: Option<string>, model: string,
                             ms: Option<ModelSettings>, post1: ChatPayload -> ChatResponse, post2: ChatPayload -> ChatResponse)
    requires IsNullOrWhiteSpace(apiKey)
    ensures SendChat(systemPrompt, userPrompt, apiKey, model, ms, post1)
         == SendChat(systemPrompt, userPrompt, apiKey, model, ms, post2) == KeyMissingMessage
  {
  }

  // ---------------------------------------------------------------------------
  // Properties of the steering text

  lemma {:induction false} AppendLinesConcat(a: seq<string>, b: seq<string>)
    ensures AppendLines(a + b) == AppendLines(a) + AppendLines(b)
  {
    if |a| > 0 {
      assert (a + b)[1..] == a[1..] + b;
      AppendLinesConcat(a[1..], b);
    } else {
      assert a + b == b;
    }
  }

  /** The steering text is the settings' lines, one per line, with the
      surrounding white space trimmed: each reasoning entry gives one line
      and each extra-body entry its own lines, all in enumeration order. */
  lemma SteeringTextLayout(ms: ModelSettings)
    ensures SteeringText(ms) == Trim(
      AppendLines(if ms.reasoning.Some? then ReasoningLines(ms.reasoning.value) else [])
      + AppendLines(if ms.extraBody.Some? then ExtraBodyLines(ms.extraBody.value) else []))
  {
    AppendLinesConcat(
      if ms.reasoning.Some? then ReasoningLines(ms.reasoning.value) else [],
      if ms.extraBody.Some? then ExtraBodyLines(ms.extraBody.value) else []);
  }

  /** `ExtraBodyLines` distributes over the entries. */
  lemma {:induction false} ExtraBodyLinesConcat(a: seq<(string, ExtraValue)>, b: seq<(string, ExtraValue)>)
    ensures ExtraBodyLines(a + b) == ExtraBodyLines(a) + ExtraBodyLines(b)
  {
    if |a| > 0 {
      assert (a + b)[1..] == a[1..] + b;
      ExtraBodyLinesConcat(a[1..], b);
    } else {
      assert a + b == b;
    }
  }

  /** With at least one reasoning entry the steering text is not empty: it
      starts with the first entry's complete line, so the prompt is always
      extended. */
  lemma FirstReasoningLineLeadsSteering(prompt: string, ms: ModelSettings)
    requires ms.reasoning.Some? && |ms.reasoning.value| > 0
    ensures var first := "Reasoning." + ms.reasoning.value[0].0 + ": " + ms.reasoning.value[0].1 + ".";
      && |first| <= |SteeringText(ms)| && SteeringText(ms)[..|first|] == first
      && ComposeSystemPrompt(prompt, Some(ms)) == prompt + SteeringHeader + SteeringText(ms)
  {
    var e := ms.reasoning.value[0];
    var first := "Reasoning." + e.0 + ": " + e.1 + ".";
    var lines := SteeringLines(ms);
    assert lines[0] == first;
    var raw := AppendLines(lines);
    assert raw == first + NewLine + AppendLines(lines[1..]);
    assert raw[0] == 'R' && !IsWhiteSpace(raw[0]);
    assert raw[|first| - 1] == '.' && !IsWhiteSpace(raw[|first| - 1]);
    var a := SkipLeading(raw, 0);
    assert a == 0;
    var b := SkipTrailing(raw, 0, |raw|);
    assert b >= |first|;
    assert SteeringText(ms) == raw[0..b];
    assert raw[0..b][..|first|] == raw[..|first|] == first;
    assert !AllWhiteSpace(raw);
  }
}
