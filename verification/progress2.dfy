/** Lesson 2 of the travel agent (`Progress2.Run`): a keyword heuristic
    decides whether to call the weather tool, the tool output is appended
    to the user message, and a fixed steering suffix is appended to the
    agent's instructions. The weather lookup and the chat call are
    parameters. */
module Progress2 {
  import opened Wrappers
  import opened Text
  import OpenAiClient

  const Instructions :=
    "You help travelers plan by checking real-time weather."
    + " When asked about weather or packing, call the get_weather_forecast tool."
    + " Make sure you have access to real-time weather data to make your recommendations. "
  const SteeringSuffix := " Reasoning.Effort: low. Response.Verbosity: medium."
  const ToolHeader := "-- Tool output: get_weather_forecast --"
  const LessonCity := "Dehradun"
  const Keywords := ["weather", "temperature", "pack"]

  function LessonPrompt(city: string): string {
    "Headed to " + city + " today. What " + "weather" + " should I expect and what is the exact temperature right now?"
      + " Also, what types of clothes should I pack"
  }

  /** The tool heuristic: the prompt mentions one of the keywords, in any
      letter case. */
  function NeedsWeather(userPrompt: string): (b: bool)
    ensures b <==> exists kw, i :: kw in Keywords && 0 <= i <= |userPrompt| && MatchAt(userPrompt, kw, i)
  {
    ContainsIgnoreCase(userPrompt, "weather")
      || ContainsIgnoreCase(userPrompt, "temperature")
      || ContainsIgnoreCase(userPrompt, "pack")
  }

  /** The user message: the prompt line, then, only for a non-empty report,
      a blank line, the tool header line and the report line. */
  function ComposeUserMessage(userPrompt: string, report: string): (m: string)
    ensures |userPrompt| + 1 <= |m| && m[..|userPrompt| + 1] == userPrompt + "\n"
    ensures report == "" <==> m == userPrompt + "\n"
    ensures report != "" ==> m[|userPrompt| + 1..] == "\n" + ToolHeader + "\n" + report + "\n"
  {
    var head := userPrompt + OpenAiClient.NewLine;
    if report != "" then
      var m := head + OpenAiClient.NewLine + ToolHeader + OpenAiClient.NewLine + report + OpenAiClient.NewLine;
      assert m[..|userPrompt| + 1] == head;
      assert m[|userPrompt| + 1..] == "\n" + ToolHeader + "\n" + report + "\n";
      m
    else head
  }

  /** What the lesson hands to `SendChatAsync`, and the city it asked the
      weather tool about, if it asked at all. */
  datatype Turn = Turn(toolCall: Option<string>, systemPrompt: string, userMessage: string)

  function Run(userPrompt: string, city: string, forecast: string -> string): (t: Turn)
    ensures t.toolCall.Some? <==> NeedsWeather(userPrompt)
    ensures t.toolCall.Some? ==> t.toolCall.value == city
    ensures t.systemPrompt == Instructions + SteeringSuffix
    ensures !NeedsWeather(userPrompt) ==> t.userMessage == userPrompt + "\n"
    ensures NeedsWeather(userPrompt) ==> t.userMessage == ComposeUserMessage(userPrompt, forecast(city))
  {
    var report := if NeedsWeather(userPrompt) then forecast(city) else "";
    Turn(if NeedsWeather(userPrompt) then Some(city) else None,
         Instructions + SteeringSuffix,
         ComposeUserMessage(userPrompt, report))
  }

  /** Without the heuristic firing, the weather tool's answer cannot matter. */
  lemma NoKeywordNoTool(userPrompt: string, city: string, f1: string -> string, f2: string -> string)
    requires !NeedsWeather(userPrompt)
    ensures Run(userPrompt, city, f1) == Run(userPrompt, city, f2)
    ensures Run(userPrompt, city, f1).toolCall == None
  {
  }

  function UpperAscii(s: string): (u: string)
    ensures |u| == |s| && forall i :: 0 <= i < |s| ==> u[i] == ToUpperAscii(s[i])
  {
    if |s| == 0 then [] else [ToUpperAscii(s[0])] + UpperAscii(s[1..])
  }

  /** The heuristic ignores letter case: upper-casing the prompt changes
      nothing. */
  lemma NeedsWeatherIgnoresCase(userPrompt: string)
    ensures NeedsWeather(UpperAscii(userPrompt)) == NeedsWeather(userPrompt)
  {
    var u := UpperAscii(userPrompt);
    forall w, i | 0 <= i <= |userPrompt|
      ensures MatchAt(u, w, i) <==> MatchAt(userPrompt, w, i)
    {
      forall j | 0 <= j < |userPrompt|
        ensures ToUpperAscii(u[j]) == ToUpperAscii(userPrompt[j])
      {
      }
    }
  }

  /** The lesson's own prompt mentions the weather, so the tool is called
      for the lesson's city. */
  lemma LessonCallsWeatherTool(forecast: string -> string)
    ensures NeedsWeather(LessonPrompt(LessonCity))
    ensures Run(LessonPrompt(LessonCity), LessonCity, forecast).toolCall == Some(LessonCity)
  {
    var p := LessonPrompt(LessonCity);
    var tail := " should I expect and what is the exact temperature right now?" + " Also, what types of clothes should I pack";
    assert p == ("Headed to " + LessonCity + " today. What ") + "weather" + tail;
    assert |"Headed to " + LessonCity + " today. What "| == 31;
    assert p[31..38] == "weather";
    assert MatchAt(p, "weather", 31);
  }

  /** The lesson passes no model settings, so the system message is exactly
      the instructions and the suffix. */
  lemma LessonSystemMessage(userPrompt: string, city: string, forecast: string -> string)
    ensures var t := Run(userPrompt, city, forecast);
      OpenAiClient.BuildPayload(t.systemPrompt, t.userMessage, OpenAiClient.DefaultModel, None).messages
        == [OpenAiClient.Message("system", Instructions + SteeringSuffix), OpenAiClient.Message("user", t.userMessage)]
  {
  }
}
