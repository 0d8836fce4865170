# Request matching for a small Deno web framework, in Dafny

This project models the request-matching core of a small TypeScript web framework for Deno. The
framework has four layers:

- **Token parsers** (`base/parser.ts`) turn one optional string into a result. They are `equal`,
  `unequal`, `empty`, `any`, `integer`, `bigint`, `decimal`, `not`, `oneOf` and `all`.
- **Path parsers** (`router/path.ts`) take the list of path segments and return a result together
  with the segments they left unconsumed. They are `segment` and its lifts, `combine`, `forward`,
  `choose` and `path`. An older draft of the same idea lives in `router.ts`. Its leaves
  `constant`, `any`, `end`, `integer`, `float` and `bigint` read `segments[0]` and call
  `parseInt`, `parseFloat` or `BigInt`. Its `sequence` and `forward` are the same code as the newer
  `combine` and `forward`.
- **Routes** (`router/method.ts`, `router/query.ts`, `path` in `router/path.ts`) look at a request
  and either accept it with a value or reject it with a chained error.
- **The application** (`app.ts`) holds an ordered list of route/handler entries. It answers a
  request with the handler of the first entry whose route accepts it, or with a 404 not-found
  response.

Both result modules (`base/result.ts` and the older `result.ts`) and the optional value of
`base/maybe.ts` are modelled as well.

Parsers are Dafny function values, as they are closures in the source. Properties therefore
quantify over arbitrary sub-parsers. Two predicates describe how a path parser treats its input:

- `Suffixing`: it only consumes.
- `Restoring`: it gives its input back when it fails.

The loops of the source become methods proved equal to a specification function:

- `all` becomes `TokenParsers.RunAll` against `AllValues`.
- The `for...in` of `query` becomes `QueryParsers.RunQuery` against `Match`.
- The dispatch loop of `handle` becomes `Application.App.Handle` against `FirstMatch`, `Respond`
  and `Evaluated`.

The application is a class whose `entries` field `route` appends to.

Three behaviours of the code are worth stating plainly, because a reader might expect otherwise:

- **Failure remainders.** When `combine` (or the draft `sequence`) fails, it returns the failing
  parser's own result, remainder included. Segments consumed by the parsers before it are not
  given back (`router/path.ts:94-95`). A failing continuation of `forward` likewise leaves
  consumed what the start consumed (`router/path.ts:119-120`).
- **Method routes.** They succeed with `true` (`router/method.ts:7`), not with the method string.
- **Error wording.** The messages read "can not", as the code writes them.

`router/path_test.ts` imports `constant`, `float` and `sequence` from `./path.ts`, which does not
export them. Its messages are those of `router.ts`. Its scenarios are therefore stated about the
draft leaves of `router.ts`, combined with `combine`/`forward`/`choose` of `router/path.ts`. To do
so, the model gives both result modules one Result datatype. The source objects differ: `router.ts`
results carry a `tag` field (`result.ts`), while the `isOk` of `base/result.ts` that the combinators
call reads `kind`. "## Left out" lists what this identification covers up.

## Model

| member | source | states |
|---|---|---|
| MaybeAlgebra.Kind | base/maybe.ts:1-10 | the tag of a maybe is "some" or "none" |
| MaybeAlgebra.IsSome | base/maybe.ts:19-21 | `isSome` holds exactly of a Some |
| MaybeAlgebra.IsNone | base/maybe.ts:27-29 | `isNone` holds exactly of a maybe whose tag is "none" |
| MaybeAlgebra.Map | base/maybe.ts:31-43 | `map` keeps `none` as `none` and applies the mapper to a carried value |
| MaybeAlgebra.ConstructorsAreRecognised | base/maybe.ts:12-25 | `some(v)` carries `v` and is not none; `none` is recognised by `isNone` |
| MaybeAlgebra.ExactlyOneKind | base/maybe.ts:19-29 | exactly one of `isSome`/`isNone` holds |
| MaybeAlgebra.MapNoneIgnoresMapper | base/maybe.ts:35-36 | mapping `none` is `none` whatever the mapper |
| MaybeAlgebra.MapComposes | base/maybe.ts:31-43 | mapping twice is mapping once with the composition |
| ResultAlgebra.Kind | base/result.ts:1-11 | the tag of a result is "ok" or "err" |
| ResultAlgebra.IsOk | base/result.ts:20-22 | `isOk` holds exactly of an Ok |
| ResultAlgebra.IsErr | base/result.ts:31-33 | `isErr` holds exactly of an Err |
| ResultAlgebra.Map | base/result.ts:35-47 | `map` preserves the tag, returns an error unchanged and maps a value |
| ResultAlgebra.ConstructorsCarry | base/result.ts:13-29 | `ok(v)` is Ok carrying `v`, `err(e)` is Err carrying `e` |
| ResultAlgebra.ExactlyOneKind | base/result.ts:20-33 | exactly one of `isOk`/`isErr` holds |
| ResultAlgebra.MapErrIgnoresMapper | base/result.ts:39-40 | mapping an error gives that error whatever the mapper |
| ResultAlgebra.MapComposes | base/result.ts:35-47 | mapping twice is mapping once with the composition |
| LegacyResult.Tag | result.ts:1-11 | the `tag` of an older result is "ok" or "err" |
| LegacyResult.IsOk | result.ts:13-15 | older `isOk` holds exactly of an Ok |
| LegacyResult.IsErr | result.ts:17-19 | older `isErr` holds exactly of an Err |
| LegacyResult.Map | result.ts:21-33 | older `map` returns an error unchanged and maps a value |
| LegacyResult.ExactlyOneTag | result.ts:13-19 | exactly one of the older predicates holds |
| LegacyResult.MapPreservesTag | result.ts:21-33 | older `map` keeps the tag; an error never reaches the mapper |
| LegacyResult.AgreesWithBaseResult | result.ts:13-33 | the older module's predicates, tag and `map` coincide with base/result.ts |
| Values.Show | base/parser.ts:17 | a template literal renders a present token as itself and an absent one as "undefined" |
| Values.TokenValue | base/parser.ts:34-38 | a handed-back token is absent iff the token is, and otherwise the string itself |
| Numerals.RenderNat | base/parser.ts:46 | a natural number's numeral is one or more digits |
| Numerals.RenderRoundTrip | base/parser.ts:46-50 | every integer's numeral passes `^-?\d+$` and denotes that integer again |
| Numerals.LeadingZeros | base/parser.ts:46-50 | leading zeros do not change the value of a digit string |
| Numerals.IntegerGateWithinDecimalGate | base/parser.ts:46-86 | whatever passes the integer gate passes the decimal gate |
| Numerals.DecimalGateWithoutDot | base/parser.ts:46-86 | without a dot, the decimal gate accepts exactly what the integer gate accepts |
| Numerals.GatesRejectEmpty | base/parser.ts:46-86 | neither gate accepts the empty string |
| Numerals.NoGateForNonNumeralStart | base/parser.ts:46-86 | a string starting with neither digit nor `-` passes no gate |
| Numerals.NoIntegerGateWithDot | base/parser.ts:46 | a string containing a dot fails the integer gate |
| Numerals.DecimalGateWithFraction | base/parser.ts:86 | digits, a dot and digits pass the decimal gate |
| Numerals.ValueExamples | base/parser.ts:46-50 | `007` denotes 7 and `-5` denotes -5 |
| TokenParsers.Fail | base/parser.ts:4-8 | a fresh ParserError has the given message and no inner error |
| TokenParsers.Equal | base/parser.ts:12-20 | `equal(target)` accepts exactly `target`, returns it, else "expected T, but found S" |
| TokenParsers.Empty | base/parser.ts:26-32 | `empty` accepts exactly the absent token, else "expected undefined, but found S" |
| TokenParsers.Any | base/parser.ts:34-38 | `any` accepts every token and returns it |
| TokenParsers.Integer | base/parser.ts:40-60 | absent → "expected integer..."; accepted iff `^-?\d+$`, with the integer denoted; else "S is not valid integer format" |
| TokenParsers.BigInt | base/parser.ts:62-78 | same gate as `integer`; value is the integer denoted; else "S is not valid big int format" |
| TokenParsers.Decimal | base/parser.ts:80-100 | accepted iff `^-?\d+(\.\d+)?$`; else "S is not valid decimal format"; absent → "expected decimal..." |
| TokenParsers.Not | base/parser.ts:102-115 | `not(p)` accepts exactly what `p` rejects, returning the token unchanged |
| TokenParsers.Unequal | base/parser.ts:22-24 | `unequal(target)` is `not(equal(target))`; its contract is stated by `TokenParsers.UnequalAccepts` |
| TokenParsers.UnequalAccepts | base/parser.ts:22-24 | `unequal(target)` accepts exactly the tokens other than `target`, absent included |
| TokenParsers.FirstSuccess | base/parser.ts:127-140 | `oneOf` succeeds iff some parser does, with the first success in order; else "S does not match any parser" |
| TokenParsers.OneOf | base/parser.ts:127-140 | `oneOf(parsers)` runs the loop `TokenParsers.FirstSuccess` specifies; properties in `OneOfIgnoresLater`, `OneOfRejectsWhenAllReject` |
| TokenParsers.OneOfIgnoresLater | base/parser.ts:131-136 | parsers after the first success are never consulted |
| TokenParsers.OneOfRejectsWhenAllReject | base/parser.ts:138 | when every parser fails, `oneOf` fails with its own aggregate message |
| TokenParsers.AllValues | base/parser.ts:152-168 | `all` succeeds iff every parser does, one value per parser in order; else the first failure's error |
| TokenParsers.All | base/parser.ts:152-168 | `all(parsers)` tuples the values `TokenParsers.AllValues` specifies; `RunAll` is its loop, proved equal |
| TokenParsers.AllValuesStopsAt | base/parser.ts:157-163 | once parser `i` fails after successes, `all` returns its error |
| TokenParsers.RunAll | base/parser.ts:155-167 | the push loop of `all` returns exactly the result `AllValues` specifies |
| TokenParsers.BigIntSharesIntegerGate | base/parser.ts:46-71 | `bigint` accepts exactly what `integer` accepts, with the same integer |
| TokenParsers.IntegerReadsRenderedNumeral | base/parser.ts:40-78 | `integer` and `bigint` read every integer's numeral back exactly |
| TokenParserExamples.IntegerReadsExamples | base/parser.ts:46-50 | `007` reads as 7, `-5` as -5 |
| TokenParserExamples.IntegerRejectsExamples | base/parser_test.ts:21-25 | `a1000` and `100.0` fail with "… is not valid integer format" |
| TokenParserExamples.BigIntRejectsExample | base/parser_test.ts:34-38 | `a1000` fails with "a1000 is not valid big int format" |
| TokenParserExamples.AllAcceptsNumeral | base/parser_test.ts:82-87 | `all([integer, decimal, bigint])` on any integer's numeral yields the three readings in order |
| TokenParserExamples.AllAcceptsExample | base/parser_test.ts:82-87 | the same on `100` |
| TokenParserExamples.AllStopsAtInteger | base/parser_test.ts:89-94 | on a non-integer it fails with the error of `integer` |
| TokenParserExamples.AllRejectsExample | base/parser_test.ts:89-94 | `100.0` fails with "100.0 is not valid integer format" |
| TokenParserExamples.OneOfAcceptsExample | base/parser_test.ts:96-101 | `oneOf([integer, decimal, bigint])` on `100000.9` takes `decimal`'s reading |
| TokenParserExamples.OneOfRejectsNonNumeral | base/parser_test.ts:103-108 | a token starting with a letter fails with "S does not match any parser" |
| PathParsers.Head | router/path.ts:29 | `segments[0]` is absent iff the list is empty, else the first segment |
| PathParsers.Tail | router/path.ts:32 | `segments.slice(1)` is a suffix, one shorter when non-empty |
| PathParsers.Segment | router/path.ts:27-45 | `segment(p)` succeeds iff `p` accepts the first segment, consuming it; failure wraps `p`'s error as "can not parse path segment S" |
| PathParsers.SegmentConsumesAtMostOne | router/path.ts:27-45 | a lifted parser only consumes, at most one segment, and restores its input on failure |
| PathParsers.Literal | router/path.ts:47-49 | `segment(equal(target))`; contract stated by `PathParsers.LiteralAccepts` |
| PathParsers.Integer | router/path.ts:51-53 | `segment(integer)`; contract stated by `PathParsers.IntegerSegment` |
| PathParsers.Decimal | router/path.ts:55-57 | `segment(decimal)`; its contract is `PathParsers.Segment`'s with `TokenParsers.Decimal` |
| PathParsers.BigInt | router/path.ts:59-61 | `segment(bigint)`; its contract is `PathParsers.Segment`'s with `TokenParsers.BigInt` |
| PathParsers.Any | router/path.ts:63-65 | `segment(any)`; contract stated by `PathParsers.AnyAccepts` |
| PathParsers.End | router/path.ts:67-69 | `segment(empty)`; contract stated by `PathParsers.EndAccepts` |
| PathParsers.LiteralAccepts | router/path.ts:47-49 | `literal(t)` succeeds iff the first segment is `t`, consuming it |
| PathParsers.EndAccepts | router/path.ts:67-69 | `end()` succeeds iff no segment is left |
| PathParsers.AnyAccepts | router/path.ts:63-65 | `any()` always succeeds, with an absent value on the empty list |
| PathParsers.IntegerSegment | router/path.ts:51-53 | `integer()` succeeds iff the first segment is an integer numeral, with its value |
| PathParsers.Step | router/path.ts:87-100 | one step of the `reduce`; stated by `PathParsers.FoldSnoc` and `FoldThreads` |
| PathParsers.Combine | router/path.ts:82-106 | `combine(parsers)`; contract stated by `PathParsers.CombineThreads` and `CombineFailsAtFirstFailure` |
| PathParsers.Fold | router/path.ts:86-102 | a successful `reduce` holds one value per parser |
| PathParsers.Tupled | router/path.ts:104 | the collected values become one tuple; errors and remainder pass through |
| PathParsers.ThreadedPrefix | router/path.ts:86-102 | the input of parser `i` depends only on the parsers before it |
| PathParsers.FoldThreads | router/path.ts:86-102 | the `reduce` succeeds iff each parser succeeds on its predecessor's remainder, with their values in order; else the first failure's error and that parser's own remainder |
| PathParsers.FoldSucceeds | router/path.ts:86-102 | the success half of `FoldThreads` |
| PathParsers.FoldFails | router/path.ts:92-95 | the failure half: the first failing parser, named, and its own result |
| PathParsers.CombineUnfolds | router/path.ts:82-106 | `combine` is the `reduce` followed by the tuple |
| PathParsers.CombineThreads | router/path.ts:82-106 | `combine` succeeds iff every parser succeeds on what its predecessor left; tuple of values, last remainder |
| PathParsers.CombineFailsAtFirstFailure | router/path.ts:94-95 | a failing `combine` returns exactly the first failing parser's result, consumed segments not restored |
| PathParsers.CombineEmpty | router/path.ts:101 | `combine([])` succeeds with the empty tuple, input untouched |
| PathParsers.FoldFirstFailure | router/path.ts:89-95 | after a first-parser failure the `reduce` carries that error and remainder to the end |
| PathParsers.CombineFirstFailure | router/path.ts:89-95 | a first-parser failure is returned as it is; with a restoring parser the input is given back |
| PathParsers.FoldSuffix | router/path.ts:86-102 | the `reduce` of consuming parsers leaves a suffix |
| PathParsers.CombineSuffixing | router/path.ts:82-106 | `combine` of consuming parsers only consumes |
| PathParsers.Forward | router/path.ts:108-126 | `forward(start, generator)`; contract stated by `PathParsers.ForwardOutcomes` |
| PathParsers.ForwardOutcomes | router/path.ts:108-126 | start failure keeps the input; continuation failure keeps the start's remainder; success pairs both values |
| PathParsers.ForwardSuffixing | router/path.ts:108-126 | `forward` of consuming parsers only consumes |
| PathParsers.ForwardConstantIsCombine | router/path.ts:82-126 | with a constant continuation and restoring parsers, `forward` equals a two-parser `combine` |
| PathParsers.ForwardConstantAfterSuccess | router/path.ts:113-121 | a constant-continuation `forward` after a successful start, both outcomes |
| PathParsers.CombinePairAfterSuccess | router/path.ts:86-102 | a two-parser `combine` after a successful first parser, both outcomes |
| PathParsers.CombinePairSucceeds | router/path.ts:97 | two successes give both values and the second's remainder |
| PathParsers.CombinePairSecondFails | router/path.ts:94-95 | a failing second parser's result is returned as it is |
| PathParsers.FoldPairAfterSuccess | router/path.ts:86-102 | the two-parser `reduce` after a first success, both outcomes |
| PathParsers.FoldPair | router/path.ts:86-102 | the two-parser `reduce` after a first success is one more step |
| PathParsers.FoldSnoc | router/path.ts:86-102 | the `reduce` over one more parser is one more step |
| PathParsers.CombineThreeSucceed | router/path.ts:82-106 | three successes in turn give their three values in order |
| PathParsers.Choose | router/path.ts:138-151 | `choose(parsers)` runs the loop `PathParsers.FirstMatch` specifies; `ChooseRestoring` states its effect on the input |
| PathParsers.FirstMatch | router/path.ts:138-151 | `choose` succeeds iff some parser does on the same input, returning the first success verbatim; else "no parser match the segments" with the input |
| PathParsers.ChooseFirstSucceeds | router/path.ts:142-146 | a successful first alternative decides `choose` |
| PathParsers.ChooseAllFail | router/path.ts:149 | all alternatives failing gives the aggregate error and the input |
| PathParsers.ChooseTwoFail | router/path.ts:149 | the same for two alternatives |
| PathParsers.ChooseRestoring | router/path.ts:138-151 | `choose` restores its input on failure and only consumes when its alternatives do |
| PathParsers.Split | router/path.ts:156 | `split("/")` gives at least one slash-free piece, and joining the pieces gives the pathname back |
| PathParsers.SplitPrefix | router/path.ts:156 | a slash-free prefix is glued onto the first piece |
| PathParsers.SplitJoin | router/path.ts:156 | splitting undoes joining of slash-free pieces |
| PathParsers.PathSegments | router/path.ts:156-157 | the parsed segments are slash-free, one fewer than the pieces |
| PathParsers.PathSegmentsOfJoin | router/path.ts:156-157 | `"/" + join(names)` yields exactly `names` |
| PathParsers.Path | router/path.ts:153-168 | `path(parser)`; contract stated by `PathParsers.PathOutcome` |
| PathParsers.PathOutcome | router/path.ts:153-168 | `path(p)` accepts iff `p` succeeds on the segments, ignoring leftovers; failure wraps with "can not match request with path: P" |
| PathExamples.LiteralUsers | router/path.ts:47-49 | `literal("users")` on `["users","42"]` yields "users", leaves `["42"]` |
| PathExamples.CombineKeepsEarlierConsumption | router/path.ts:94-95 | a `combine` failing at its second parser keeps the first segment consumed |
| PathExamples.ForwardKeepsStartConsumption | router/path.ts:119-120 | a `forward` whose continuation fails keeps the start's consumption |
| PathExamples.CombineInOrder | router/path.ts:82-106 | two literals in order match `[a, b]` |
| PathExamples.CombineOrderMatters | router/path.ts:82-106 | swapped, they fail at once and give the input back |
| PathExamples.ApiPathSegments | router/path.ts:156-157 | "/api/v1/users/100" gives `api`, `v1`, `users`, `100` |
| QueryParsers.Query | router/query.ts:12-38 | `query(parser)` as a route; its outcome is what `QueryParsers.RunQuery` computes and `Match` specifies |
| QueryParsers.Lookup | router/query.ts:22 | a parameter is present iff given with a non-empty value, and then it is that value |
| QueryParsers.Match | router/query.ts:19-36 | the query matches iff every field's parser accepts; else the first failing field's "can not match query parameter K: V" error |
| QueryParsers.MatchStopsAt | router/query.ts:24-33 | once field `i` fails after successes, the query fails with its error |
| QueryParsers.RunQuery | router/query.ts:15-37 | the `for...in` loop returns exactly the result `Match` specifies |
| QueryParsers.MatchKeys | router/query.ts:19-25 | a matched record holds exactly the declared keys |
| QueryParsers.MatchValues | router/query.ts:20-25 | with distinct keys, each key maps to its own parser's value |
| QueryParsers.MatchIgnoresLaterFields | router/query.ts:26-33 | fields after a failing one do not affect the outcome |
| QueryParsers.QueryEmpty | router/query.ts:19-36 | an empty declaration matches with the empty record |
| QueryParsers.EmptyValueIsAbsent | router/query.ts:22 | an empty parameter value reaches its parser as absent, like a missing one |
| QueryExamples.BothParametersGiven | router/query_test.ts:7-21 | `?a=100&b=b` gives `{ a: 100, b: "b" }` |
| QueryExamples.FirstFieldMatches | router/query_test.ts:23-44 | with `?a=100`, field `a` matches |
| QueryExamples.SecondFieldFails | router/query_test.ts:23-44 | field `b` fails, naming the value "undefined" |
| QueryExamples.SecondParameterMissing | router/query_test.ts:23-44 | the whole query fails with "can not match query parameter b: undefined" wrapping "expected b, but found undefined" |
| MethodRoutes.HttpMethod | router/method.ts:4-16 | `httpMethod(method)`; contract stated by `MethodRoutes.HttpMethodOutcome` |
| MethodRoutes.Predefined | router/method.ts:18-25 | `GET`, `POST`, ...; contract stated by `MethodRoutes.PredefinedAreExclusive` and `Verb.Name` |
| MethodRoutes.HttpMethodOutcome | router/method.ts:4-16 | `httpMethod(m)` accepts with `true` iff the request method is `m`; else "request should use M, but it use N" |
| MethodRoutes.HttpMethodReadsOnlyMethod | router/method.ts:5-6 | the outcome depends only on the request's method |
| MethodRoutes.HttpMethodIsCaseSensitive | router/method.ts:6 | "get" does not match `GET` |
| MethodRoutes.Verb.Name | router/method.ts:18-25 | each predefined route compares against a non-empty upper-case name |
| MethodRoutes.PredefinedAreExclusive | router/method.ts:18-25 | at most one predefined method route accepts a request |
| MethodExamples.GetAcceptsGet | router/method_test.ts:6-18 | `httpMethod("GET")` accepts a GET request with `true` |
| MethodExamples.PostRejectsGet | router/method_test.ts:19-33 | `httpMethod("POST")` rejects GET with "request should use POST, but it use GET" |
| DraftRouter.Constant | router.ts:18-51 | `constant(literal)`; contract stated by `DraftRouter.ConstantAccepts` and `ConstantStepsOne` |
| DraftRouter.Any | router.ts:53-74 | `any()`; contract stated by `DraftRouter.AnyTakesFirst` and `AnyStepsOne` |
| DraftRouter.End | router.ts:76-98 | `end()`; contract stated by `DraftRouter.EndAccepts` |
| DraftRouter.Integer | router.ts:100-144 | `integer()`; contract stated by `DraftRouter.IntegerOutcome` and `IntegerStepsOne` |
| DraftRouter.Float | router.ts:146-190 | `float()`; contract stated by `DraftRouter.FloatOutcome` and `FloatStepsOne` |
| DraftRouter.BigInt | router.ts:192-228 | `bigint()`; contract stated by `DraftRouter.BigIntOutcome` and `BigIntStepsOne` |
| DraftRouter.ParseInt | router.ts:114 | `parseInt(segment, 10)`; contract stated by `DraftRouter.ParseIntOutcome` |
| DraftRouter.TrimStart | router.ts:114 | `parseInt` skips leading white space: the result is a suffix not starting with white space |
| DraftRouter.TrimStartDropsSpace | router.ts:114 | everything skipped is white space |
| DraftRouter.LeadingDigits | router.ts:114 | the longest digit prefix |
| DraftRouter.Unsigned | router.ts:114 | an optional leading sign is skipped |
| DraftRouter.ParseIntOutcome | router.ts:114-115 | `parseInt` gives NaN iff no digit follows white space and sign; else the digits' value, negated after `-` |
| DraftRouter.ParseIntReadsNumeral | router.ts:114 | on a numeral passing `^-?\d+$`, `parseInt` gives the integer denoted |
| DraftRouter.LeadingDigitsOfDigits | router.ts:114 | digits followed by a non-digit are the leading digits |
| DraftRouter.ParseIntStopsAtNonDigit | router.ts:114 | `parseInt` stops at the first non-digit (`100.0` is 100) |
| DraftRouter.ParseIntOfDigitStart | router.ts:114 | a string starting with a digit reads as its leading digits |
| DraftRouter.TrimStartKeeps | router.ts:114 | a string not starting with white space is unchanged by skipping |
| DraftRouter.ParseIntRejectsLetterStart | router.ts:114-115 | a string starting with a letter gives NaN |
| DraftRouter.StepsOneAt | router.ts:100-228 | a one-step parser consumes one segment on success and none on failure |
| DraftRouter.LeavesStepOne | router.ts:18-228 | `constant`, `any`, `integer`, `float`, `bigint` each consume exactly one segment on success and none on failure |
| DraftRouter.ConstantStepsOne | router.ts:18-51 | `constant` steps over one segment |
| DraftRouter.AnyStepsOne | router.ts:53-74 | `any` steps over one segment |
| DraftRouter.IntegerStepsOne | router.ts:100-144 | `integer` steps over one segment |
| DraftRouter.FloatStepsOne | router.ts:146-190 | `float` steps over one segment |
| DraftRouter.BigIntStepsOne | router.ts:192-228 | `bigint` steps over one segment |
| DraftRouter.LeavesFailAtEnd | router.ts:18-228 | every leaf but `end` fails on the empty list with "found the end of segments", consuming nothing |
| DraftRouter.ConstantAccepts | router.ts:18-51 | `constant(l)` succeeds iff the first segment is `l`; else "segment S does not match expected literal L" with the input |
| DraftRouter.EndAccepts | router.ts:76-98 | `end()` succeeds iff the list is empty; else "expect the end of segments, but found S" |
| DraftRouter.AnyTakesFirst | router.ts:53-74 | `any()` takes the first segment |
| DraftRouter.IntegerOutcome | router.ts:100-144 | `integer()` succeeds iff `parseInt` finds a number; else "segment S can not be parsed as integer" with the input |
| DraftRouter.IntegerReadsNumeral | router.ts:100-144 | an integer numeral is read as the integer it denotes |
| DraftRouter.IntegerReadsLeadingDigits | router.ts:100-144 | digits followed by a non-digit read as those digits |
| DraftRouter.IntegerRejectsLetterStart | router.ts:115-124 | a segment starting with a letter is rejected with the list unchanged |
| DraftRouter.IntegerFailsOnLetterStart | router.ts:115-124 | such a segment makes `integer()` fail |
| DraftRouter.FloatOutcome | router.ts:146-190 | `float()` succeeds iff `parseFloat` gives a number; else "segment S can not be parsed as float" |
| DraftRouter.BigIntOutcome | router.ts:192-228 | `bigint()` succeeds iff `BigInt` converts; else "segment S can not be parsed as bigint" wrapping the thrown error |
| DraftRouter.FoldSteps | router.ts:242-272 | a `sequence` of one-step parsers hands parser `i` exactly `segs[i..]` |
| DraftRouter.SequenceStepsOnSuccess | router.ts:242-272 | a successful such `sequence` consumes one segment per parser |
| DraftRouter.FailingStep | router.ts:249-255 | the failing parser, named, with input `segs[k..]` |
| DraftRouter.SequenceStepsOnFailure | router.ts:253-255 | a failing such `sequence` returns parser `k`'s own result on `segs[k..]` |
| DraftExamples.ConstantExamples | router/path_test.ts:17-44 | `constant` matches its literal and names both on a mismatch |
| DraftExamples.AnyEndExamples | router/path_test.ts:46-77 | `any` takes a segment; `end` accepts only the empty list |
| DraftExamples.ParseIntReadsRendered | router.ts:114 | a rendered number followed by a non-digit reads back as that number |
| DraftExamples.ParseIntHundred | router.ts:114 | "100" reads as 100 |
| DraftExamples.ParseIntHundredDotZero | router.ts:114 | "100.0" reads as 100 |
| DraftExamples.IntegerReadsHundred | router/path_test.ts:79-86 | `integer()` on `["100"]` gives 100 and nothing left |
| DraftExamples.IntegerRejectsHello | router/path_test.ts:88-105 | `integer()` rejects `hello` with the list kept |
| DraftExamples.FloatExamples | router/path_test.ts:107-132 | `float()` reads `9.9` and rejects `hello` |
| DraftExamples.BigIntExamples | router/path_test.ts:134-159 | `bigint()` reads a big numeral and rejects `hello` |
| DraftExamples.IntegerStepsOverHundred | router/path_test.ts:161-167 | first step: `100` read, two segments left |
| DraftExamples.FloatStepsOverHundred | router/path_test.ts:161-167 | second step: `100.0` read |
| DraftExamples.BigIntStepsOverBig | router/path_test.ts:161-167 | third step: the big numeral read, nothing left |
| DraftExamples.SequenceSucceeds | router/path_test.ts:161-167 | `sequence([integer(), float(), bigint()])` gives `[100, 100.0, big]`, nothing left |
| DraftExamples.SequenceFails | router/path_test.ts:169-184 | it fails on `aaa` with `integer`'s error, both segments kept |
| DraftExamples.ForwardSucceeds | router/path_test.ts:186-194 | `forward` gives `[100, [100.0, big]]`, nothing left |
| DraftExamples.ForwardFails | router/path_test.ts:196-213 | it fails on `aaa` with `integer`'s error, both segments kept |
| DraftExamples.ChooseTakesFirstMatch | router/path_test.ts:215-221 | `choose([integer(), float()])` takes `integer`'s reading of digits followed by a non-digit (`100.0` is 100) |
| DraftExamples.ChooseWithoutMatch | router/path_test.ts:223-235 | `choose([integer(), integer()])` on a letter-initial segment fails with "no parser match the segments", segment kept |
| Application.FirstMatch | app.ts:28-38 | the dispatched entry is the first whose route accepts; none iff every route rejects |
| Application.Respond | app.ts:28-46 | the answer of `handle`; stated by `Application.App.Handle`, `AppendKeepsEarlierMatch`, `AppendAfterNoMatch`, `NoEntriesNotFound` |
| Application.Evaluated | app.ts:29-38 | at most as many routes are evaluated as there are entries |
| Application.App.constructor | app.ts:18-20 | a new application has its context and no entries |
| Application.App.Route | app.ts:48-55 | `route` appends one entry after all others |
| Application.App.Handle | app.ts:28-46 | `handle` calls the first matching handler, or answers 404 not-found, evaluating routes up to the first match |
| Application.AppendKeepsEarlierMatch | app.ts:29-37 | registering an entry does not change the answer to a request an earlier entry matches |
| Application.AppendAfterNoMatch | app.ts:29-45 | when nothing matched, a new last entry alone decides the answer |
| Application.NoEntriesNotFound | app.ts:40-45 | with no entries every request gets 404 `{"message":"NOT FOUND"}` |

## Left out

- URL parsing: a request arrives with its pathname and its query map already extracted.
  `new URL` and `searchParams` are not part of this model. Only the first value of a repeated
  query parameter is kept.
- Promises and `await`: routes are modelled as synchronous. `App.run`, `serve` and the HTTP server
  are I/O and are not modelled.
- The combinator `route` of `router/route.ts` is a stub in the source, so routes combined into a
  tuple are not modelled.
- `handlers/staticFileHandler.ts` and `example.ts` are not part of this model. Handlers are pure
  functions from context, value and request to a status and body. Response headers are not modelled.
- TokenParsers.Decimal: the value is the validated text (`Dec`), not the floating-point number
  `Number` would give. Floating point is not modelled.
- TokenParsers.Integer: `Number(str)` is modelled as exact. JavaScript's loss of precision beyond
  2^53 and `-0` are not modelled. The NaN branch is unreachable once the gate has passed. The
  `catch` branches cannot be reached by these pure functions.
- TokenParsers.Not: the rejected parser's source text in the failure message is replaced by the
  fixed placeholder `<parser>`.
- MaybeAlgebra.IsNone: the source compares by object identity with the `none` singleton. The model
  compares values, so a separately built `{ kind: "none" }` object is not distinguished.
- QueryParsers.Match: fields are taken in the declaration order given. JavaScript's `for...in`
  ordering of integer-like keys is not modelled.
- DraftRouter.ParseInt: only radix 10 is modelled. `integer(radix)` with another radix is not
  modelled. The value is the exact integer of the digit run. JavaScript's `parseInt` returns a
  Number, rounded beyond 2^53 (`12345678901234567891` reads as 12345678901234567000), and `-0` for
  `"-0"`. The same exactness holds in the members below.
- ParseIntOutcome (`DraftRouter.ParseIntOutcome`): states the exact integer where `parseInt` rounds beyond 2^53 or gives `-0`.
- ParseIntReadsNumeral (`DraftRouter.ParseIntReadsNumeral`): states the exact integer where `parseInt` rounds beyond 2^53.
- ParseIntStopsAtNonDigit (`DraftRouter.ParseIntStopsAtNonDigit`): states the digit run's exact value where `parseInt` rounds beyond 2^53.
- ParseIntOfDigitStart (`DraftRouter.ParseIntOfDigitStart`): states the leading digits' exact value where `parseInt` rounds beyond 2^53.
- IntegerReadsNumeral (`DraftRouter.IntegerReadsNumeral`): the value of the draft `integer()` is exact where `parseInt` rounds beyond 2^53.
- IntegerReadsLeadingDigits (`DraftRouter.IntegerReadsLeadingDigits`): the value of the draft `integer()` is exact where `parseInt` rounds beyond 2^53.
- ParseIntReadsRendered (`DraftExamples.ParseIntReadsRendered`): exact for every rendered number, where `parseInt` rounds beyond 2^53.
- LegacyResult.AgreesWithBaseResult: it holds once a `tag` object of `result.ts` is identified
  with a `kind` object of `base/result.ts`. The two modules share one Result datatype. In the
  source, the base `isOk` reads `kind` and is false on a `tag` object.
- DraftRouter.Float and DraftRouter.BigInt: `parseFloat` and `BigInt` are parameters of the model.
  The path_test scenarios state what they return on the inputs used as hypotheses.
- DraftExamples.ChooseTakesFirstMatch: it states the expectation of `router/path_test.ts:215-221`
  under the shared Result datatype. It is not a composition the source can perform. The `choose`
  of `router/path.ts` tests success with the base `isOk` (`router/path.ts:144`), which reads `kind`.
  The draft leaves of `router.ts` return `tag` objects. So in the source every draft success reads
  as a failure, and `["100.0"]` gets "no parser match the segments". It is also stated for every
  segment of the test's shape (digits then a non-digit) rather than for the literal `100.0`.
- DraftExamples.ChooseWithoutMatch is stated for every letter-initial segment rather than for the
  literal `a100.0`.
- Application.Evaluated: it states a bound. The exact count is tied to the loop by the `ensures`
  of `App.Handle`.
