/** The reply value a Redis command hands back (StackExchange.Redis's
    `RedisResult`), and the few library conversions the parser leans on. */
module Resp {
  import opened Wrappers
  import opened VectorCodec

  /** The wire types of a scalar reply element. */
  datatype Kind = SimpleString | BulkString | Integer | Error

  /** A reply element: a null, a scalar with its textual form, or a
      multi-bulk array of nested elements. `Nil` stands for both a null bulk
      string and a null multi-bulk array. */
  datatype Reply = Nil | Scalar(kind: Kind, text: string) | Multi(items: seq<Reply>)

  /** Library behaviour the parser calls but that is not part of this model:
      - `tryParse`: `float.TryParse` on a string (culture-dependent), `None` on failure;
      - `toSingle`: `Convert.ToSingle` on a reply element, `None` when it throws;
      - `arrayText`: `RedisResult.ToString()` of a multi-bulk element. */
  datatype Env = Env(
    tryParse: string -> Option<Float32>,
    toSingle: Reply -> Option<Float32>,
    arrayText: seq<Reply> -> string)

  /** `RedisResult.ToString()`; a null element reads as the empty string. */
  function Str(env: Env, r: Reply): string {
    match r
    case Nil => ""
    case Scalar(_, t) => t
    case Multi(items) => env.arrayText(items)
  }

  function Bulk(s: string): Reply {
    Scalar(BulkString, s)
  }
}
