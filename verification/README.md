# Retrieval and agent core of dotnet-ai-integration-lab, in Dafny

This project models the parts of the lab that carry real logic, and proves
properties about them.

The first part is the RediSearch retrieval demo in `RedisDemo/Program.cs`:

- `ParseRedisSearchResults` walks the flat `FT.SEARCH` reply
  `[total, id, (score?), fields, ...]`.
- `FloatArrayToByteArray` packs an embedding as little-endian binary32.
- Three argument lists are built: the `FT.SEARCH` KNN query of `SearchTopK`,
  the `FT.INFO` probe and `FT.CREATE` schema of `EnsureIndexExists`, and the
  `HSET` of `UpsertDoc`.
- The retrieved texts are joined into the context handed to the chat model.

The second part is the agent side:

- `OpenAiClient.SendChatAsync` in `TravelAgentWeatherGPT/AgentCommon.cs`
  checks the API key, builds steering text from the model settings, makes a
  two-message request and picks the reply string.
- Lesson 2 (`Progress2.Run`) decides with a keyword heuristic whether to ask
  the weather tool, then assembles the user message and system prompt.

Every operation is a pure function over immutable datatypes:

- A reply element is `Nil | Scalar(kind, text) | Multi(items)`.
- A float is its opaque 32-bit pattern (`bv32`), and bytes are `bv8`.
- An argument is a text `Token` or a binary `Blob`.

The source's two loops, the cursor walk over the reply and the byte
packing, are also written as methods. Loop invariants show that each
method computes the same result as the functional definition.

Argument lists get their meaning from a small reader. It covers only the
subset of the RediSearch `FT.SEARCH` / `FT.CREATE` syntax that these lists
use: `ReadCreate` expects `ON` at position 1 and `PREFIX` at position 3, and
`ReadSearchOptions` rejects any keyword other than `PARAMS`, `DIALECT`,
`RETURN`, `SORTBY` and `LIMIT`. Within that subset, the lemmas state what
the server understands from the lists the code builds, not just which
tokens are present.

Modules:

- `Wrappers`: `Option`, `Result`.
- `Decimal`: `int.ToString()` and a matching integer reader.
- `Text`: `string.Join`, `Trim`, `IsNullOrWhiteSpace`, ordinal case-insensitive `Contains`.
- `Resp`: reply elements.
- `VectorCodec`: the byte packing.
- `SearchParser`: the reply walk.
- `SearchParserFacts`: properties of the reply walk, and a reply encoder for the round trip.
- `RedisCommands`: the argument lists and the context.
- `OpenAiClient`: `SendChatAsync`.
- `Progress2`: lesson 2.

## Model

| member | source | states |
|---|---|---|
| SearchParser.ParseRedisSearchResults | RedisDemo/Program.cs:155-223 | The cursor loop returns exactly the functional parse `Parse`. A null reply or an empty array gives no hits. In the model, only a non-null, non-array reply fails. A non-empty result has fewer than half as many hits as the reply has elements. |
| SearchParser.Parse | RedisDemo/Program.cs:155-161 | A null reply or an empty array parses to no hits, and only a non-null, non-array reply is an error. Otherwise the hits are the walk from element 1, and a non-empty result has fewer than half as many hits as the reply has elements. |
| SearchParser.FieldScore | RedisDemo/Program.cs:212-214 | A `score` value that `float.TryParse` accepts gives that float; otherwise the `Convert.ToSingle` result is used. The score is unset exactly when both fail. |
| SearchParser.ReadOneHit | RedisDemo/Program.cs:166-219 | One pass of the loop body stops exactly when the functional `ReadHit` stops. Otherwise it yields the same hit and the same next cursor position. |
| SearchParser.WalkFields | RedisDemo/Program.cs:203-217 | The inner `for` loop in steps of two computes the text and score of walking every complete name/value pair in order. |
| SearchParser.ReadHit | RedisDemo/Program.cs:166-219 | A hit that is read has the non-empty id found at the cursor. The cursor advances by at least two elements (id and fields) and stays within the reply. |
| SearchParser.ParseFrom | RedisDemo/Program.cs:163-220 | Each hit consumes at least two elements, so there are at most (length − start)/2 hits. The walk terminates. |
| SearchParser.FieldsOf | RedisDemo/Program.cs:193-201 | A non-array `fields` element is wrapped as a list of exactly one element. |
| SearchParser.StepPairEffect | RedisDemo/Program.cs:206-216 | A pair named `text_field` sets the text and leaves the score alone. A pair named `score` sets the score from the field value and leaves the text alone. Any other name changes nothing. |
| SearchParserFacts.ParseEncodeRoundTrip | RedisDemo/Program.cs:155-223 | Take any hits with non-empty ids whose scores render and parse back. Encode them as the server does, with or without standalone scores. The parse returns exactly those hits, in order: none dropped, reordered, sorted or truncated. |
| SearchParserFacts.TotalCountIgnored | RedisDemo/Program.cs:163 | Element 0, the total count, never influences the result. |
| SearchParserFacts.TruncatedReplyKeepsEarlierHits | RedisDemo/Program.cs:164-220 | The hits parsed from a reply are a prefix of the hits parsed from any extension of it. A walk that stops early keeps every earlier hit and never appends a partial one. |
| SearchParserFacts.EmptyIdStops | RedisDemo/Program.cs:168-169 | An empty (or null) id ends the walk with no further hits. |
| SearchParserFacts.NoFieldsElementStops | RedisDemo/Program.cs:175-191 | An id with no element left for `fields`, after the optional score, ends the walk without a hit. |
| SearchParserFacts.StandaloneScoreConsumedIff | RedisDemo/Program.cs:171-193 | The element after the id is consumed as a score if and only if it is a simple string, bulk string or integer whose text parses as a float. The hit then spans three elements, otherwise two. |
| SearchParserFacts.WalkWithoutName | RedisDemo/Program.cs:203-217 | Pairs none of which is named `text_field` leave the text unchanged. Pairs none of which is named `score` leave the score unchanged. |
| SearchParserFacts.LastTextFieldWins | RedisDemo/Program.cs:209 | When several pairs are named `text_field`, the text is the value of the last one. |
| SearchParserFacts.LastScoreFieldWins | RedisDemo/Program.cs:210-215 | The last `score` pair decides the score: its parsed value, else its `Convert.ToSingle` value, else unset. Any standalone score is overwritten. |
| SearchParserFacts.WalkPairsPrefix | RedisDemo/Program.cs:204-207 | Walking n pairs reads only the first 2n elements of the fields list. |
| SearchParserFacts.OddTrailingFieldIgnored | RedisDemo/Program.cs:204 | An odd trailing element of a fields list has no effect. |
| SearchParserFacts.ScalarFieldsYieldNoPairs | RedisDemo/Program.cs:198-204 | A scalar `fields` element yields no pair: the text stays empty and the standalone score stands. |
| VectorCodec.FloatArrayToByteArray | RedisDemo/Program.cs:248-258 | On either host byte order, the buffer is the host-independent blob `Encode(vector)`, of 4·n bytes. Float i occupies bytes 4i..4i+3, least significant byte first. Reading the buffer back gives the vector. |
| VectorCodec.FloatBytes | RedisDemo/Program.cs:253-254 | `GetBytes` followed by the big-endian reversal yields the little-endian bytes whatever the host order. |
| VectorCodec.EncodeLayout | RedisDemo/Program.cs:250-255 | Float i of the vector sits at bytes 4i..4i+3 of the blob, little-endian. |
| VectorCodec.DecodeEncode | RedisDemo/Program.cs:248-258 | Reading the blob as 4-byte little-endian groups recovers every 32-bit pattern of the vector. |
| VectorCodec.EncodeDecode | RedisDemo/Program.cs:248-258 | Every byte string whose length is a multiple of four is the blob of exactly one vector, so the packing is a bijection. |
| VectorCodec.LeBytesRoundTrip | RedisDemo/Program.cs:253-255 | The four bytes of one float, read low-byte-first, give back its pattern. |
| VectorCodec.FromLeBytesRoundTrip | RedisDemo/Program.cs:253-255 | Any four bytes are the little-endian bytes of the pattern they spell. |
| RedisCommands.SearchArgs | RedisDemo/Program.cs:118-134 | The `FT.SEARCH` argument list has exactly 18 arguments. What the server reads from them is stated by `RedisCommands.ReadSearchArgs` and `RedisCommands.SearchArgsMeaning`. |
| RedisCommands.SearchArgsMeaning | RedisDemo/Program.cs:118-134 | The server reads the `FT.SEARCH` arguments as a query on `idx:documents`. Its KNN clause and its `LIMIT 0 k` carry the same k. The `BLOB` parameter holds the query vector's bytes. Only `text_field` and `score` are returned, never `vector_field`. Results are sorted ascending by `score`, under dialect 2. |
| RedisCommands.ReadSearchArgs | RedisDemo/Program.cs:125-133 | The 18 arguments read as exactly one request: index, KNN clause, one `BLOB` parameter, dialect 2, return fields `text_field score`, sort `score ASC`, limit (0, k). |
| RedisCommands.KnnClauseCount | RedisDemo/Program.cs:122 | The neighbour count read back from `*=>[KNN k @vector_field $BLOB AS score]` is k. |
| RedisCommands.EnsureIndexExists | RedisDemo/Program.cs:261-290 | `FT.INFO idx:documents` is always issued. `FT.CREATE` follows if and only if the probe threw, whatever the exception, and it uses the schema argument list. |
| RedisCommands.CreateIndexArgs | RedisDemo/Program.cs:274-286 | The `FT.CREATE` argument list as written has exactly 22 arguments. That the server cannot read it is stated by `RedisCommands.CreateIndexArgsUnreadable`. |
| RedisCommands.CreateIndexArgsUnreadable | RedisDemo/Program.cs:274-286 | As written, the token after `HNSW` is `TYPE` where the server expects the attribute count, so the schema cannot be read. |
| RedisCommands.CountInsertedAfterAlgorithm | RedisDemo/Program.cs:274-286 | The corrected list is the written one with a single count token inserted after `HNSW`. That count equals the number of attribute tokens that follow. |
| RedisCommands.CreateIndexArgsWithCountRead | RedisDemo/Program.cs:274-286 | With the count in place, the server reads index `idx:documents` on hashes with the single key prefix `doc:`. The schema is `text_field` as TEXT and `vector_field` as an HNSW vector with the five intended attributes. |
| RedisCommands.VectorAttributesMeaning | RedisDemo/Program.cs:16 | The vector field declares type FLOAT32 and a `DIM` token that reads back as `EmbeddingDim`, 1536. |
| RedisCommands.UpsertDoc | RedisDemo/Program.cs:104-114 | The key is `doc:` followed by the id. There are exactly two entries: `text_field` with the text, then `vector_field` with a blob of 4·n bytes that decodes back to the vector. |
| RedisCommands.UpsertDocMatchesIndex | RedisDemo/Program.cs:104-114 | The written key is the index's only prefix `doc:` followed by the id. The hash has exactly two entries: the schema's TEXT field with the text, then its VECTOR field with a blob that decodes to the vector. |
| RedisCommands.BuildContext | RedisDemo/Program.cs:78 | With no hits the context is empty. Otherwise it ends exactly where the last hit's text ends; `RedisCommands.ContextHoldsHitTexts` places every text and separator. |
| RedisCommands.ContextHoldsHitTexts | RedisDemo/Program.cs:78 | Each hit's text appears whole in the context, in hit order. It is followed by `\n---\n` unless it is the last hit, whose text ends the context. |
| RedisCommands.EmptyContext | RedisDemo/Program.cs:78 | With no hits the context is the empty string. |
| Decimal.IntToString | RedisDemo/Program.cs:122-133 | The rendering of an integer is non-empty. It starts with `-` exactly when the integer is negative, and everything after that sign is decimal digits. |
| Decimal.IntToStringRoundTrip | RedisDemo/Program.cs:133 | The decimal rendering of an integer (`k.ToString()`, `EmbeddingDim.ToString()`) reads back as that integer. |
| Decimal.IntToStringInjective | RedisDemo/Program.cs:133 | Distinct integers render as distinct tokens. |
| Text.JoinPiece | RedisDemo/Program.cs:78 | `string.Join` puts every piece at its offset, with exactly one separator between neighbours, and the last piece ends the string. |
| Text.Trim | TravelAgentWeatherGPT/AgentCommon.cs:162 | `Trim` returns a slice of its input. Only white space is removed around it, and the slice neither starts nor ends with white space. The result is empty if and only if the input is all white space. |
| Text.TrimIdempotent | TravelAgentWeatherGPT/AgentCommon.cs:162 | Trimming twice is trimming once. |
| Text.ContainsIgnoreCase | TravelAgentWeatherGPT/Progress/Progress2.cs:25-27 | Holds if and only if the word occurs at some position, letter for letter up to case. |
| OpenAiClient.SendChat | TravelAgentWeatherGPT/AgentCommon.cs:122-207 | A null or blank key answers the fixed key-missing message. Otherwise the answer is the reply selected from posting the two-message payload. |
| OpenAiClient.BlankKeySendsNothing | TravelAgentWeatherGPT/AgentCommon.cs:129-130 | With a null or blank key the answer does not depend on the HTTP exchange at all: nothing is sent. |
| OpenAiClient.ComposeSystemPrompt | TravelAgentWeatherGPT/AgentCommon.cs:134-167 | Null settings leave the prompt unchanged. The prompt is unchanged exactly when settings are null or the steering lines are all white space. Otherwise it is the prompt, the steering header and the trimmed steering text. |
| OpenAiClient.ReasoningLines | TravelAgentWeatherGPT/AgentCommon.cs:138-142 | Each reasoning entry gives exactly the line `Reasoning.{key}: {value}.`, one per entry, in enumeration order. |
| OpenAiClient.ExtraEntryLines | TravelAgentWeatherGPT/AgentCommon.cs:146-158 | A string dictionary gives one `{outer}.{inner}: {value}.` line per inner pair, in order. Any other value gives the single line `{key}: {value}` with no period. |
| OpenAiClient.SteeringTextLayout | TravelAgentWeatherGPT/AgentCommon.cs:137-162 | The steering text is the reasoning lines followed by the extra-body lines, each ended by a newline, then trimmed. |
| OpenAiClient.ExtraBodyLinesConcat | TravelAgentWeatherGPT/AgentCommon.cs:146-159 | Extra-body entries contribute their lines independently and in enumeration order. |
| OpenAiClient.FirstReasoningLineLeadsSteering | TravelAgentWeatherGPT/AgentCommon.cs:138-166 | With at least one reasoning entry, the steering text starts with that entry's complete line, so the prompt is always extended. |
| OpenAiClient.BuildPayload | TravelAgentWeatherGPT/AgentCommon.cs:170-178 | The request holds the model and exactly two messages: the system prompt with steering first, the user prompt second. |
| OpenAiClient.SelectReply | TravelAgentWeatherGPT/AgentCommon.cs:190-206 | A failure status gives `OpenAI error {status}: {body}`. A non-empty `choices` gives the first message's content, or "" when it is null. Otherwise the answer is `No response from OpenAI.`. |
| OpenAiClient.OnlyFirstChoiceRead | TravelAgentWeatherGPT/AgentCommon.cs:200-203 | Choices after the first never affect the answer: two successful responses whose first choice agrees give the same string. |
| Progress2.NeedsWeather | TravelAgentWeatherGPT/Progress/Progress2.cs:25-27 | The heuristic holds if and only if one of `weather`, `temperature`, `pack` occurs somewhere in the prompt, ignoring case. |
| Progress2.NeedsWeatherIgnoresCase | TravelAgentWeatherGPT/Progress/Progress2.cs:25-27 | Upper-casing the prompt never changes the heuristic's answer. |
| Progress2.ComposeUserMessage | TravelAgentWeatherGPT/Progress/Progress2.cs:37-44 | The message always starts with the prompt line. The blank line, tool header line and report line follow if and only if the report is non-empty. |
| Progress2.Run | TravelAgentWeatherGPT/Progress/Progress2.cs:10-53 | The tool is asked about the city if and only if the heuristic holds. The system prompt is the instructions plus the fixed steering suffix. Without the tool call, the user message is the prompt line alone. |
| Progress2.NoKeywordNoTool | TravelAgentWeatherGPT/Progress/Progress2.cs:29-35 | When the heuristic does not fire, no tool call is made and the tool's answer cannot affect anything. |
| Progress2.LessonCallsWeatherTool | TravelAgentWeatherGPT/Progress/Progress2.cs:21-35 | The lesson's own prompt about Dehradun triggers the heuristic, so the tool is asked about Dehradun. |
| Progress2.LessonSystemMessage | TravelAgentWeatherGPT/Progress/Progress2.cs:47-49 | The lesson passes no model settings, so the system message sent is exactly the instructions and the suffix, followed by the user message. |

## Left out

- HTTP, JSON and network I/O are parameters:
  - `PostAsync` in `SendChatAsync` is a function from payload to response.
  - The Authorization header is not modelled.
  - JSON serialisation is not modelled.
  - Exceptions from a malformed `choices` / `message` object are not modelled.
- Redis execution is not modelled: `ExecuteAsync`, `HashSetAsync` and connection setup. The model builds the commands and consumes a given reply value. The `FT.INFO` outcome is a parameter.
- `Stopwatch` timing and all console output are not modelled.
- `GetEmbedding`, `GetChatAnswer`, `WeatherClient`, the sample documents in `Main` and the other lab projects (Progress3-5, image generation, streaming, local chat bot) are not part of this model. They are network, console or fixed prompt text.
- Floats are opaque 32-bit patterns. `float.TryParse` and `Convert.ToSingle` are abstract partial functions in `Resp.Env`, because they are culture-dependent. Score ordering is not modelled.
- The `float.NaN` "unset" score is `None`. A score field whose text parses to NaN is therefore distinct in the model, but indistinguishable in the source.
- `RedisResult.ToString()` of a nested array is abstract (`Env.arrayText`). A null element reads as the empty string.
- The cast of a non-array top-level reply to an array throws in the library. The model returns `Err(MalformedReply)` instead.
- SearchParser.ParseRedisSearchResults: a null multi-bulk array is read as `Nil`, the same value as a null bulk string. When such an element is in the `fields` position, the source casts it to a null array and `fields.Length` throws `NullReferenceException` (RedisDemo/Program.cs:194-204). The model instead wraps it as a one-element list and appends a hit with empty text. That throw is not modelled.
- Decimal.IntToString: integer rendering assumes the invariant culture, with an ASCII `-`. `k.ToString()` and the `{k}` interpolation (RedisDemo/Program.cs:122, 133) use the current culture. For negative k, a culture whose negative sign is not `-` (U+2212, say) renders both the KNN clause and `LIMIT` differently from the model. Non-negative k is rendered the same way in every culture, because .NET formats integers with ASCII digits.
- VectorCodec.FloatArrayToByteArray: does not model the 32-bit `int` arithmetic of `vector.Length * 4` and `i * 4` (RedisDemo/Program.cs:250, 255). For a vector of 2^29 floats or more, the product overflows and the source throws, either from `new byte[...]` with a negative length or from `Buffer.BlockCopy` into a buffer that is too small. The model returns the full 4·n bytes for any length. `RedisCommands.SearchArgs` and `RedisCommands.UpsertDoc` inherit this.
- `Environment.NewLine` is taken to be `"\n"`.
- `StringComparison.OrdinalIgnoreCase` is modelled as ASCII case folding. This is exact for the three ASCII keywords, but not for non-ASCII letters in the prompt.
- The code does not reject k ≤ 0, and it does not check the vector length against `EmbeddingDim`. The model does not add either check.
- RedisCommands.SearchArgsMeaning: states that the `BLOB` parameter is the encoded query vector. It does not restate that decoding gives the vector, which `VectorCodec.DecodeEncode` proves separately.
- The `hostIsLittleEndian` parameter of `SearchArgs` and `UpsertDoc` does not change their result. This is because `FloatArrayToByteArray` is proved to produce `Encode(v)` on either host.

## Findings

| source | as written | input that shows it | evidently intended | confidence | as-written member | corrected member |
|---|---|---|---|---|---|---|
| RedisDemo/Program.cs:274-286 | `FT.CREATE` lists `vector_field VECTOR HNSW` followed directly by `TYPE FLOAT32 DIM 1536 ...`, with no attribute count | The fixed argument list itself: token 12 is `TYPE`, where RediSearch's schema grammar reads the number of attribute tokens, so the server cannot parse the schema | `vector_field VECTOR HNSW 10 TYPE FLOAT32 DIM 1536 DISTANCE_METRIC COSINE M 16 EF_CONSTRUCTION 200` | not executed | RedisCommands.CreateIndexArgsUnreadable | RedisCommands.CreateIndexArgsWithCountRead |
