/**
 * The values that flow through parsers and routes, and the chained error they fail with.
 * The source types these with variadic tuple types; the model uses one uniform value type.
 */
module Values {
  import opened MaybeAlgebra

  /** A token, a parsed number, a tuple of values or a record of named values. */
  datatype Value =
    | Absent                          // `undefined`
    | Str(s: string)                  // a string token
    | Num(n: int)                     // a JS number produced by `integer`
    | Big(n: int)                     // a BigInt
    | Real(x: real)                   // a JS number produced by `parseFloat`
    | Dec(text: string)               // the number `decimal` reads from this validated text
    | Bool(b: bool)                   // the `true` of a method route
    | List(items: seq<Value>)         // a positional tuple
    | Record(fields: map<string, Value>)  // the record a query route builds

  /**
   * ParserError, PathParserError and RouteError alike: a message and an optional inner
   * error, so the causes form a finite chain.
   */
  datatype Error = Error(message: string, inner: Maybe<Error>)

  /** A segment or query value, which may be absent (`undefined`). */
  type Token = Maybe<string>

  /** How a template literal renders a token: `undefined` when it is absent. */
  function Show(t: Token): (s: string)
    ensures t.Some? ==> s == t.value
    ensures t.None? ==> s == "undefined"
  {
    match t
    case None => "undefined"
    case Some(s) => s
  }

  /** The value a parser returns when it hands the token itself back. */
  function TokenValue(t: Token): (v: Value)
    ensures v.Absent? <==> t.None?
    ensures t.Some? ==> v == Str(t.value)
  {
    match t
    case None => Absent
    case Some(s) => Str(s)
  }
}
