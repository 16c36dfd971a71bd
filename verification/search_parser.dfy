/** `ParseRedisSearchResults`: the cursor walk over the flat `FT.SEARCH`
    reply `[total, id, (score?), fields, id, (score?), fields, ...]`. */
module SearchParser {
  import opened Wrappers
  import opened VectorCodec
  import opened Resp

  /** One search hit. A `None` score is `ParseRedisSearchResults`'s `float.NaN` sentinel:
      no score was found for the hit. */
  datatype Hit = Hit(id: string, text: string, score: Option<Float32>)

  /** The reply is not an array at all, so the cast to an array fails. */
  datatype ParseError = MalformedReply

  /** The text of a field and the score seen so far while walking a hit's
      `fields` element. */
  datatype FieldState = FieldState(text: string, score: Option<Float32>)

  const TextFieldName := "text_field"
  const ScoreFieldName := "score"

  /** The wire types that may hold a standalone score. */
  predicate IsScoreCandidate(r: Reply) {
    r.Scalar? && r.kind != Error
  }

  /** The standalone score at position `i`, if that element is consumed as one. */
  function StandaloneScore(env: Env, arr: seq<Reply>, i: nat): Option<Float32> {
    if i < |arr| && IsScoreCandidate(arr[i]) then env.tryParse(Str(env, arr[i])) else None
  }

  /** A multi-bulk `fields` element is its items; any other element is wrapped
      as a one-element list. */
  function FieldsOf(c: Reply): (fs: seq<Reply>)
    ensures !c.Multi? ==> |fs| == 1
  {
    if c.Multi? then c.items else [c]
  }

  /** The value of a `score` field: `float.TryParse` of its text, falling back
      to `Convert.ToSingle`, and unset when that throws too. */
  function FieldScore(env: Env, v: Reply): (r: Option<Float32>)
    ensures env.tryParse(Str(env, v)).Some? ==> r == env.tryParse(Str(env, v))
    ensures env.tryParse(Str(env, v)).None? ==> r == env.toSingle(v)
    ensures r.None? <==> env.tryParse(Str(env, v)).None? && env.toSingle(v).None?
  {
    match env.tryParse(Str(env, v))
    case Some(f) => Some(f)
    case None => env.toSingle(v)
  }

  /** The name of pair `j` of a fields list. */
  function NameAt(env: Env, fs: seq<Reply>, j: nat): string
    requires 2 * j < |fs|
  {
    Str(env, fs[2 * j])
  }

  /** The effect of one name/value pair. */
  function StepPair(env: Env, st: FieldState, name: Reply, value: Reply): FieldState {
    var n := Str(env, name);
    if n == TextFieldName then st.(text := Str(env, value))
    else if n == ScoreFieldName then st.(score := FieldScore(env, value))
    else st
  }

  /** The state after the first `n` pairs, walked in order. */
  function WalkPairs(env: Env, fs: seq<Reply>, n: nat, st0: FieldState): FieldState
    requires 2 * n <= |fs|
  {
    if n == 0 then st0 else StepPair(env, WalkPairs(env, fs, n - 1, st0), fs[2 * n - 2], fs[2 * n - 1])
  }

  /** Walks every complete pair of `fs`, starting from an empty text and the
      standalone score. */
  function ReadFields(env: Env, fs: seq<Reply>, score0: Option<Float32>): FieldState {
    WalkPairs(env, fs, |fs| / 2, FieldState("", score0))
  }

  /** Reads the hit whose id is at `idx`: its result and the position after
      its `fields` element, or `None` when parsing stops there. */
  function ReadHit(env: Env, arr: seq<Reply>, idx: nat): (r: Option<(Hit, nat)>)
    requires 1 <= idx < |arr|
    ensures r.Some? ==> idx + 2 <= r.value.1 <= |arr|
    ensures r.Some? ==> r.value.0.id == Str(env, arr[idx]) != ""
  {
    var id := Str(env, arr[idx]);
    if id == "" then None
    else
      var s := StandaloneScore(env, arr, idx + 1);
      var f := if s.Some? then idx + 2 else idx + 1;
      if f >= |arr| then None
      else
        var st := ReadFields(env, FieldsOf(arr[f]), s);
        Some((Hit(id, st.text, st.score), f + 1))
  }

  /** The hits from position `idx` on, in reply order. Each hit consumes at
      least two elements, so there are at most half as many hits as elements. */
  function ParseFrom(env: Env, arr: seq<Reply>, idx: nat): (hits: seq<Hit>)
    requires 1 <= idx <= |arr|
    ensures 2 * |hits| <= |arr| - idx
    decreases |arr| - idx
  {
    if idx == |arr| then []
    else
      match ReadHit(env, arr, idx)
      case None => []
      case Some((h, next)) => [h] + ParseFrom(env, arr, next)
  }

  /** The parse of a whole reply. Element 0, the total count, is skipped. */
  function Parse(env: Env, raw: Reply): (r: Result<seq<Hit>, ParseError>)
    ensures raw.Nil? || (raw.Multi? && |raw.items| == 0) ==> r == Ok([])
    ensures r.Err? <==> raw.Scalar?
    ensures r.Ok? && raw.Multi? && |raw.items| >= 1 ==> r.value == ParseFrom(env, raw.items, 1)
    ensures r.Ok? && raw.Multi? ==> 2 * |r.value| < |raw.items| || r.value == []
  {
    match raw
    case Nil => Ok([])
    case Scalar(_, _) => Err(MalformedReply)
    case Multi(arr) => if |arr| < 1 then Ok([]) else Ok(ParseFrom(env, arr, 1))
  }

  /** `ParseRedisSearchResults`'s `while` loop: a cursor over the reply array; each pass reads one
      hit with `ReadOneHit`. */
  method ParseRedisSearchResults(env: Env, raw: Reply) returns (res: Result<seq<Hit>, ParseError>)
    ensures res == Parse(env, raw)
    ensures raw.Nil? || (raw.Multi? && |raw.items| == 0) ==> res == Ok([])
    ensures res.Err? <==> raw.Scalar?
    ensures res.Ok? && raw.Multi? ==> 2 * |res.value| < |raw.items| || res.value == []
  {
    if raw.Nil? {
      return Ok([]);
    }
    if raw.Scalar? {
      return Err(MalformedReply);
    }
    var arr := raw.items;
    if |arr| < 1 {
      return Ok([]);
    }
    var results: seq<Hit> := [];
    var idx := 1;
    while idx < |arr|
      invariant 1 <= idx <= |arr|
      invariant results + ParseFrom(env, arr, idx) == ParseFrom(env, arr, 1)
      decreases |arr| - idx
    {
      var hit, next := ReadOneHit(env, arr, idx);
      if hit.None? {
        assert results == ParseFrom(env, arr, 1);
        break;
      }
      assert ParseFrom(env, arr, idx) == [hit.value] + ParseFrom(env, arr, next);
      results := results + [hit.value];
      idx := next;
    }
    assert results == ParseFrom(env, arr, 1);
    return Ok(results);
  }

  /** One pass of `ParseRedisSearchResults`'s loop body: the id, the optional score, the
      `fields` element and the inner walk over its pairs in steps of two. */
  method ReadOneHit(env: Env, arr: seq<Reply>, start: nat) returns (hit: Option<Hit>, idx: nat)
    requires 1 <= start < |arr|
    ensures hit.None? <==> ReadHit(env, arr, start).None?
    ensures hit.Some? ==> ReadHit(env, arr, start) == Some((hit.value, idx))
  {
    idx := start;
    var id := Str(env, arr[idx]);
    idx := idx + 1;
    if id == "" {
      return None, idx;
    }
    var score: Option<Float32> := None;
    if idx < |arr| {
      var next := arr[idx];
      if IsScoreCandidate(next) {
        var parsed := env.tryParse(Str(env, next));
        if parsed.Some? {
          score := parsed;
          idx := idx + 1;
        }
      }
    }
    assert score == StandaloneScore(env, arr, start + 1);
    if idx >= |arr| {
      return None, idx;
    }
    var fields := FieldsOf(arr[idx]);
    idx := idx + 1;
    var st := WalkFields(env, fields, score);
    hit := Some(Hit(id, st.text, st.score));
  }

  /** `ParseRedisSearchResults`'s inner loop: `for (i = 0; i + 1 < fields.Length; i += 2)`. */
  method WalkFields(env: Env, fields: seq<Reply>, score: Option<Float32>) returns (st: FieldState)
    ensures st == ReadFields(env, fields, score)
  {
    st := FieldState("", score);
    var pairs := 0;
    while 2 * pairs + 1 < |fields|
      invariant 2 * pairs <= |fields|
      invariant st == WalkPairs(env, fields, pairs, FieldState("", score))
      decreases |fields| - 2 * pairs
    {
      WalkPairsStep(env, fields, pairs, FieldState("", score));
      st := StepPair(env, st, fields[2 * pairs], fields[2 * pairs + 1]);
      pairs := pairs + 1;
    }
    HalfOfLength(pairs, |fields|);
  }

  lemma WalkPairsStep(env: Env, fs: seq<Reply>, n: nat, st0: FieldState)
    requires 2 * n + 2 <= |fs|
    ensures WalkPairs(env, fs, n + 1, st0) == StepPair(env, WalkPairs(env, fs, n, st0), fs[2 * n], fs[2 * n + 1])
  {
  }

  /** One pair changes the text exactly when it is named `text_field` and
      the score exactly when it is named `score`. */
  lemma StepPairEffect(env: Env, st: FieldState, name: Reply, value: Reply)
    ensures StepPair(env, st, name, value).text
      == (if Str(env, name) == TextFieldName then Str(env, value) else st.text)
    ensures StepPair(env, st, name, value).score
      == (if Str(env, name) == ScoreFieldName then FieldScore(env, value) else st.score)
  {
    assert |TextFieldName| != |ScoreFieldName|;
  }

  lemma HalfOfLength(pairs: nat, len: nat)
    requires 2 * pairs <= len < 2 * pairs + 2
    ensures pairs == len / 2
  {
  }
}
