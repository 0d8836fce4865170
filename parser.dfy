/**
 * The token parsers of base/parser.ts. A parser maps one optional string token to a result;
 * `equal`, `not`, `oneOf` and `all` build parsers from a target string or other parsers.
 */
module TokenParsers {
  import opened MaybeAlgebra
  import opened ResultAlgebra
  import opened Values
  import opened Numerals

  type Outcome = Result<Error, Value>

  /** `Parser<T>`: a total function of an optional token. */
  type Parser = Token -> Outcome

  /** A failure with a fresh ParserError that has no inner error. */
  function Fail(message: string): (r: Outcome)
    ensures r.Err? && r.error.message == message && r.error.inner.None?
  {
    Err(Error(message, None))
  }

  /** `equal(target)`: accepts exactly the token `target` and returns it. */
  function Equal(target: string): (p: Parser)
    ensures forall t :: p(t).Ok? <==> t == Some(target)
    ensures forall t :: p(t).Ok? ==> p(t).value == TokenValue(t)
    ensures forall t :: p(t).Err? ==> p(t) == Fail("expected " + target + ", but found " + Show(t))
  {
    t => if t == Some(target) then Ok(TokenValue(t)) else Fail("expected " + target + ", but found " + Show(t))
  }

  /** `empty`: accepts only the absent token. */
  function Empty(t: Token): (r: Outcome)
    ensures r.Ok? <==> t.None?
    ensures r.Ok? ==> r.value == Absent
    ensures r.Err? ==> r == Fail("expected undefined, but found " + t.value)
  {
    if t.None? then Ok(Absent) else Fail("expected undefined, but found " + Show(t))
  }

  /** `any`: accepts every token, the absent one included, and hands it back. */
  function Any(t: Token): (r: Outcome)
    ensures r.Ok? && r.value == TokenValue(t)
  {
    Ok(TokenValue(t))
  }

  /** `integer`: a numeral passing `^-?\d+$`, read as the integer it denotes. */
  function Integer(t: Token): (r: Outcome)
    ensures t.None? ==> r == Fail("expected integer, but found undefined")
    ensures t.Some? ==> (r.Ok? <==> IsIntegerFormat(t.value))
    ensures r.Ok? ==> t.Some? && r.value == Num(IntegerValue(t.value))
    ensures t.Some? && r.Err? ==> r == Fail(t.value + " is not valid integer format")
  {
    match t
    case None => Fail("expected integer, but found undefined")
    case Some(s) =>
      if IsIntegerFormat(s) then Ok(Num(IntegerValue(s))) else Fail(s + " is not valid integer format")
  }

  /** `bigint`: the same gate as `integer`, read as an arbitrary-precision integer. */
  function BigInt(t: Token): (r: Outcome)
    ensures t.None? ==> r == Fail("expected bigint, but found undefined")
    ensures t.Some? ==> (r.Ok? <==> IsIntegerFormat(t.value))
    ensures r.Ok? ==> t.Some? && r.value == Big(IntegerValue(t.value))
    ensures t.Some? && r.Err? ==> r == Fail(t.value + " is not valid big int format")
  {
    match t
    case None => Fail("expected bigint, but found undefined")
    case Some(s) =>
      if IsIntegerFormat(s) then Ok(Big(IntegerValue(s))) else Fail(s + " is not valid big int format")
  }

  /** `decimal`: a numeral passing `^-?\d+(\.\d+)?$`; the value stands for the number it denotes. */
  function Decimal(t: Token): (r: Outcome)
    ensures t.None? ==> r == Fail("expected decimal, but found undefined")
    ensures t.Some? ==> (r.Ok? <==> IsDecimalFormat(t.value))
    ensures r.Ok? ==> t.Some? && r.value == Dec(t.value)
    ensures t.Some? && r.Err? ==> r == Fail(t.value + " is not valid decimal format")
  {
    match t
    case None => Fail("expected decimal, but found undefined")
    case Some(s) => if IsDecimalFormat(s) then Ok(Dec(s)) else Fail(s + " is not valid decimal format")
  }

  /**
   * `not(parser)`: accepts, unchanged, exactly the tokens `parser` rejects. The source names the
   * rejected parser by its function text; the model writes a fixed placeholder instead.
   */
  function Not(p: Parser): (q: Parser)
    ensures forall t :: q(t).Ok? <==> p(t).Err?
    ensures forall t :: q(t).Ok? ==> q(t).value == TokenValue(t)
    ensures forall t :: q(t).Err? ==> q(t) == Fail("should not be parsed by parser <parser>, but found " + Show(t))
  {
    t => if p(t).Err? then Ok(TokenValue(t)) else Fail("should not be parsed by parser <parser>, but found " + Show(t))
  }

  /** `unequal(target)` is `not(equal(target))`. */
  function Unequal(target: string): Parser {
    Not(Equal(target))
  }

  /** `unequal(target)` accepts, unchanged, every token other than `target`, the absent one included. */
  lemma UnequalAccepts(target: string, t: Token)
    ensures Unequal(target)(t).Ok? <==> t != Some(target)
    ensures Unequal(target)(t).Ok? ==> Unequal(target)(t).value == TokenValue(t)
  {
  }

  /** The loop of `oneOf`: the first parser, in order, that accepts the token decides the result. */
  function FirstSuccess(ps: seq<Parser>, t: Token): (r: Outcome)
    ensures r.Ok? <==> exists i :: 0 <= i < |ps| && ps[i](t).Ok?
    ensures r.Ok? ==> exists i :: 0 <= i < |ps| && r == ps[i](t) && forall j :: 0 <= j < i ==> ps[j](t).Err?
    ensures r.Err? ==> r == Fail(Show(t) + " does not match any parser")
    decreases |ps|
  {
    if |ps| == 0 then Fail(Show(t) + " does not match any parser")
    else if ps[0](t).Ok? then ps[0](t)
    else
      var r := FirstSuccess(ps[1..], t);
      assert forall i :: 1 <= i < |ps| ==> ps[i] == ps[1..][i - 1];
      r
  }

  /** `oneOf(parsers)`. */
  function OneOf(ps: seq<Parser>): Parser {
    t => FirstSuccess(ps, t)
  }

  /** Once some parser of `ps` accepts the token, parsers appended after `ps` are never consulted. */
  lemma {:induction false} OneOfIgnoresLater(ps: seq<Parser>, qs: seq<Parser>, t: Token)
    requires exists i :: 0 <= i < |ps| && ps[i](t).Ok?
    ensures OneOf(ps + qs)(t) == OneOf(ps)(t)
  {
    if ps[0](t).Err? {
      assert (ps + qs)[1..] == ps[1..] + qs;
      var i :| 0 <= i < |ps| && ps[i](t).Ok?;
      assert ps[1..][i - 1] == ps[i];
      OneOfIgnoresLater(ps[1..], qs, t);
    }
  }

  /** When every parser rejects the token, the empty list included, `oneOf` fails with its own message. */
  lemma OneOfRejectsWhenAllReject(ps: seq<Parser>, t: Token)
    requires forall i :: 0 <= i < |ps| ==> ps[i](t).Err?
    ensures OneOf(ps)(t) == Fail(Show(t) + " does not match any parser")
  {
  }

  /** The values `all` collects: one per parser, in order, or the first failure. */
  function AllValues(ps: seq<Parser>, t: Token): (r: Result<Error, seq<Value>>)
    ensures r.Ok? <==> forall i :: 0 <= i < |ps| ==> ps[i](t).Ok?
    ensures r.Ok? ==> |r.value| == |ps| && forall i :: 0 <= i < |ps| ==> ps[i](t) == Ok(r.value[i])
    ensures r.Err? ==> exists k :: 0 <= k < |ps| && ps[k](t).Err? && r.error == ps[k](t).error &&
                                   forall j :: 0 <= j < k ==> ps[j](t).Ok?
    decreases |ps|
  {
    if |ps| == 0 then Ok([])
    else
      var prefix := AllValues(ps[..|ps| - 1], t);
      var last := ps[|ps| - 1](t);
      assert forall i :: 0 <= i < |ps| - 1 ==> ps[..|ps| - 1][i] == ps[i];
      if prefix.Err? then Err(prefix.error)
      else if last.Err? then Err(last.error)
      else Ok(prefix.value + [last.value])
  }

  /** `all(parsers)`: every parser on the same token; the values as one tuple. */
  function All(ps: seq<Parser>): Parser {
    t => ResultAlgebra.Map((vs: seq<Value>) => List(vs), AllValues(ps, t))
  }

  /** Once the parsers before index `i` succeed and parser `i` fails, `all` fails with its error. */
  lemma AllValuesStopsAt(ps: seq<Parser>, t: Token, i: nat)
    requires i < |ps| && AllValues(ps[..i], t).Ok? && ps[i](t).Err?
    ensures AllValues(ps, t) == Err(ps[i](t).error)
  {
    var r := AllValues(ps, t);
    assert forall j :: 0 <= j < i ==> ps[..i][j] == ps[j];
    var k :| 0 <= k < |ps| && ps[k](t).Err? && r.error == ps[k](t).error && forall j :: 0 <= j < k ==> ps[j](t).Ok?;
    assert k == i;
  }

  /** The loop of `all`, pushing each value in turn and returning at the first failure. */
  method RunAll(ps: seq<Parser>, t: Token) returns (r: Outcome)
    ensures r == All(ps)(t)
  {
    var values: seq<Value> := [];
    for i := 0 to |ps|
      invariant AllValues(ps[..i], t) == Ok(values)
    {
      var result := ps[i](t);
      if result.Ok? {
        assert ps[..i + 1][..i] == ps[..i];
        values := values + [result.value];
      } else {
        AllValuesStopsAt(ps, t, i);
        return result;
      }
    }
    assert ps[..|ps|] == ps;
    return Ok(List(values));
  }

  /** `bigint` and `integer` share one gate and read the same integer. */
  lemma BigIntSharesIntegerGate(t: Token)
    ensures BigInt(t).Ok? <==> Integer(t).Ok?
    ensures BigInt(t).Ok? ==> BigInt(t).value.n == Integer(t).value.n
  {
  }

  /** Every integer's numeral is accepted by `integer` and `bigint` and read back exactly. */
  lemma IntegerReadsRenderedNumeral(n: int)
    ensures Integer(Some(Render(n))) == Ok(Num(n))
    ensures BigInt(Some(Render(n))) == Ok(Big(n))
  {
    RenderRoundTrip(n);
  }
}

/** The examples the source's tests check, stated about the model of base/parser.ts. */
module TokenParserExamples {
  import opened MaybeAlgebra
  import opened ResultAlgebra
  import opened Values
  import opened Numerals
  import opened TokenParsers

  /** `integer` allows leading zeros and a sign: `007` reads as 7 and `-5` as -5. */
  lemma IntegerReadsExamples()
    ensures Integer(Some("007")) == Ok(Num(7))
    ensures Integer(Some("-5")) == Ok(Num(-5))
  {
    ValueExamples();
  }

  /** `integer` rejects `a1000` and `100.0` as format errors. */
  lemma IntegerRejectsExamples()
    ensures Integer(Some("a1000")) == Fail("a1000" + " is not valid integer format")
    ensures Integer(Some("100.0")) == Fail("100.0" + " is not valid integer format")
  {
    NoGateForNonNumeralStart("a1000");
    NoIntegerGateWithDot("100.0", 3);
  }

  /** `bigint` rejects `a1000` with its own message. */
  lemma BigIntRejectsExample()
    ensures BigInt(Some("a1000")) == Fail("a1000" + " is not valid big int format")
  {
    NoGateForNonNumeralStart("a1000");
  }

  /** `all([integer, decimal, bigint])` on any integer's numeral: the three readings, in order. */
  lemma AllAcceptsNumeral(n: int)
    ensures All([Integer, Decimal, BigInt])(Some(Render(n))) == Ok(List([Num(n), Dec(Render(n)), Big(n)]))
  {
    var t := Some(Render(n));
    IntegerReadsRenderedNumeral(n);
    RenderRoundTrip(n);
    IntegerGateWithinDecimalGate(Render(n));
    var ps: seq<Parser> := [Integer, Decimal, BigInt];
    assert ps[0](t) == Ok(Num(n)) && ps[1](t) == Ok(Dec(Render(n))) && ps[2](t) == Ok(Big(n));
    var r := AllValues(ps, t);
    assert r.Ok?;
    assert r.value == [Num(n), Dec(Render(n)), Big(n)];
  }

  /** `all([integer, decimal, bigint])` on `100`: one value per parser, in order. */
  lemma AllAcceptsExample()
    ensures All([Integer, Decimal, BigInt])(Some("100")) == Ok(List([Num(100), Dec("100"), Big(100)]))
  {
    assert Render(100) == "100";
    AllAcceptsNumeral(100);
  }

  /** `all([integer, decimal, bigint])` fails with the error of `integer` on a non-integer. */
  lemma AllStopsAtInteger(s: string)
    requires !IsIntegerFormat(s)
    ensures All([Integer, Decimal, BigInt])(Some(s)) == Fail(s + " is not valid integer format")
  {
    var ps: seq<Parser> := [Integer, Decimal, BigInt];
    assert ps[..0] == [];
    AllValuesStopsAt(ps, Some(s), 0);
  }

  /** `all([integer, decimal, bigint])` on `100.0` fails with the error of `integer`. */
  lemma AllRejectsExample()
    ensures All([Integer, Decimal, BigInt])(Some("100.0")) == Fail("100.0" + " is not valid integer format")
  {
    NoIntegerGateWithDot("100.0", 3);
    AllStopsAtInteger("100.0");
  }

  /** `oneOf([integer, decimal, bigint])` on `100000.9`: `decimal` is the first to accept. */
  lemma OneOfAcceptsExample()
    ensures OneOf([Integer, Decimal, BigInt])(Some("100000.9")) == Ok(Dec("100000.9"))
  {
    var s := "100000.9";
    assert s[..6] == "100000" && s[7..] == "9";
    DecimalGateWithFraction(s, 6);
    NoIntegerGateWithDot(s, 6);
    var ps: seq<Parser> := [Integer, Decimal, BigInt];
    assert ps[1..] == [Decimal, BigInt];
    assert FirstSuccess(ps[1..], Some(s)) == Decimal(Some(s));
  }

  /**
   * `oneOf([integer, decimal, bigint])` rejects every token that starts with neither a digit nor
   * a sign, `a100.0` among them, with its own message.
   */
  lemma OneOfRejectsNonNumeral(s: string)
    requires |s| > 0 && s[0] != '-' && !IsDigit(s[0])
    ensures OneOf([Integer, Decimal, BigInt])(Some(s)) == Fail(s + " does not match any parser")
  {
    var t := Some(s);
    NoGateForNonNumeralStart(s);
    var ps: seq<Parser> := [Integer, Decimal, BigInt];
    assert ps[0](t).Err? && ps[1](t).Err? && ps[2](t).Err?;
    OneOfRejectsWhenAllReject(ps, t);
  }
}
