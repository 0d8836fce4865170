/**
 * The scenarios of router/path_test.ts, which exercise the draft in router.ts. `parseFloat` and
 * `BigInt` are parameters of the model, so what they return on the inputs used is a hypothesis.
 */
module DraftExamples {
  import opened MaybeAlgebra
  import opened ResultAlgebra
  import opened Values
  import opened Numerals
  import opened PathParsers
  import D = DraftRouter

  const Big21 := 10000000000000000000000
  const Big20 := 100000000000000000000

  /** `constant` matches its own literal and rejects another segment, naming both. */
  lemma ConstantExamples()
    ensures var literal, segment := "any segment", "another segment";
      D.Constant(literal)([literal]) == (Ok(Str(literal)), []) &&
      D.Constant(literal)([segment]) ==
        (Err(Error("segment " + segment + " does not match expected literal " + literal, None)), [segment])
  {
    var literal, segment := "any segment", "another segment";
    D.ConstantAccepts(literal, [literal]);
    assert [literal][1..] == [];
    D.ConstantAccepts(literal, [segment]);
  }

  /** `any()` takes any segment; `end()` accepts only the empty list and names what it found. */
  lemma AnyEndExamples()
    ensures var segment := "another segment";
      D.Any()([segment]) == (Ok(Str(segment)), []) &&
      D.End()([]) == (Ok(Absent), []) &&
      D.End()([segment]) == (Err(Error("expect the end of segments, but found " + segment, None)), [segment])
  {
    var segment := "another segment";
    D.AnyTakesFirst([segment]);
    assert [segment][1..] == [];
    D.EndAccepts([]);
    D.EndAccepts([segment]);
  }

  /** `parseInt` reads a rendered natural number followed by a non-digit as that number. */
  lemma ParseIntReadsRendered(n: nat, rest: string)
    requires rest == [] || !IsDigit(rest[0])
    ensures D.ParseInt(RenderNat(n) + rest) == Some(n)
  {
    RenderNatValue(n);
    D.ParseIntStopsAtNonDigit(RenderNat(n), rest);
  }

  /** `parseInt` reads "100" as 100. */
  lemma ParseIntHundred()
    ensures D.ParseInt("100") == Some(100)
  {
    assert RenderNat(100) == "100";
    ParseIntReadsRendered(100, "");
    assert "100" + "" == "100";
  }

  /** `parseInt` reads "100.0" as 100 too: it stops at the dot. */
  lemma ParseIntHundredDotZero()
    ensures D.ParseInt("100.0") == Some(100)
  {
    assert RenderNat(100) == "100";
    ParseIntReadsRendered(100, ".0");
    assert "100" + ".0" == "100.0";
  }

  /** `integer()` reads the segment `100` as 100 and consumes it. */
  lemma IntegerReadsHundred()
    ensures D.Integer()(["100"]) == (Ok(Num(100)), [])
  {
    RenderRoundTrip(100);
    assert Render(100) == "100";
    D.IntegerReadsNumeral(["100"]);
    assert ["100"][1..] == [];
  }

  /** `integer()` rejects `hello` and gives the segment back. */
  lemma IntegerRejectsHello()
    ensures var segment := "hello";
      D.Integer()([segment]) == (Err(Error("segment " + segment + " can not be parsed as integer", None)), [segment])
  {
    D.ParseIntRejectsLetterStart("hello");
    D.IntegerOutcome(["hello"]);
  }

  /** `float()` reads `9.9` when `parseFloat` does, and rejects `hello` when `parseFloat` yields NaN. */
  lemma FloatExamples(parse: string -> Maybe<real>)
    requires parse("9.9") == Some(9.9) && parse("hello") == None
    ensures D.Float(parse)(["9.9"]) == (Ok(Real(9.9)), [])
    ensures var segment := "hello";
      D.Float(parse)([segment]) == (Err(Error("segment " + segment + " can not be parsed as float", None)), [segment])
  {
    D.FloatOutcome(parse, ["9.9"]);
    assert ["9.9"][1..] == [];
    D.FloatOutcome(parse, ["hello"]);
  }

  /** `bigint()` reads a 23-digit numeral when `BigInt` does, and wraps the error `BigInt` throws on `hello`. */
  lemma BigIntExamples(convert: string -> Result<Error, int>)
    requires convert("10000000000000000000000") == Ok(Big21) && convert("hello").Err?
    ensures D.BigInt(convert)(["10000000000000000000000"]) == (Ok(Big(Big21)), [])
    ensures var segment := "hello";
      D.BigInt(convert)([segment]) ==
        (Err(Error("segment " + segment + " can not be parsed as bigint", Some(convert(segment).error))), [segment])
  {
    D.BigIntOutcome(convert, ["10000000000000000000000"]);
    assert ["10000000000000000000000"][1..] == [];
    D.BigIntOutcome(convert, ["hello"]);
  }

  /** First step of the successful `sequence` and `forward` scenarios: `integer()` reads `100`. */
  lemma IntegerStepsOverHundred()
    ensures D.Integer()(["100", "100.0", "100000000000000000000"]) == (Ok(Num(100)), ["100.0", "100000000000000000000"])
  {
    var segs := ["100", "100.0", "100000000000000000000"];
    ParseIntHundred();
    D.IntegerOutcome(segs);
    assert segs[1..] == ["100.0", "100000000000000000000"];
  }

  /** Second step of those scenarios: `float()` reads `100.0`. */
  lemma FloatStepsOverHundred(parse: string -> Maybe<real>)
    requires parse("100.0") == Some(100.0)
    ensures D.Float(parse)(["100.0", "100000000000000000000"]) == (Ok(Real(100.0)), ["100000000000000000000"])
  {
    var segs := ["100.0", "100000000000000000000"];
    D.FloatOutcome(parse, segs);
    assert segs[1..] == ["100000000000000000000"];
  }

  /** Third step of those scenarios: `bigint()` reads the 21-digit numeral and leaves nothing. */
  lemma BigIntStepsOverBig(convert: string -> Result<Error, int>)
    requires convert("100000000000000000000") == Ok(Big20)
    ensures D.BigInt(convert)(["100000000000000000000"]) == (Ok(Big(Big20)), [])
  {
    var segs := ["100000000000000000000"];
    D.BigIntOutcome(convert, segs);
    assert segs[1..] == [];
  }

  /** `sequence([integer(), float(), bigint()])` collects the three readings, in order, and consumes everything. */
  lemma SequenceSucceeds(parse: string -> Maybe<real>, convert: string -> Result<Error, int>)
    requires parse("100.0") == Some(100.0) && convert("100000000000000000000") == Ok(Big20)
    ensures Combine([D.Integer(), D.Float(parse), D.BigInt(convert)])(["100", "100.0", "100000000000000000000"]) ==
      (Ok(List([Num(100), Real(100.0), Big(Big20)])), [])
  {
    IntegerStepsOverHundred();
    FloatStepsOverHundred(parse);
    BigIntStepsOverBig(convert);
    CombineThreeSucceed(D.Integer(), D.Float(parse), D.BigInt(convert), ["100", "100.0", "100000000000000000000"]);
  }

  /** `sequence([integer(), float()])` fails on `aaa` with the error of `integer()`, keeping both segments. */
  lemma SequenceFails(parse: string -> Maybe<real>)
    ensures var segment := "aaa";
      Combine([D.Integer(), D.Float(parse)])([segment, "100.0"]) ==
        (Err(Error("segment " + segment + " can not be parsed as integer", None)), [segment, "100.0"])
  {
    var segs := ["aaa", "100.0"];
    D.ParseIntRejectsLetterStart("aaa");
    D.IntegerOutcome(segs);
    CombineFirstFailure([D.Integer(), D.Float(parse)], segs);
  }

  /** `forward(integer(), _ => sequence([float(), bigint()]))` pairs the first reading with the tuple of the rest. */
  lemma ForwardSucceeds(parse: string -> Maybe<real>, convert: string -> Result<Error, int>)
    requires parse("100.0") == Some(100.0) && convert("100000000000000000000") == Ok(Big20)
    ensures Forward(D.Integer(), _ => Combine([D.Float(parse), D.BigInt(convert)]))(["100", "100.0", "100000000000000000000"]) ==
      (Ok(List([Num(100), List([Real(100.0), Big(Big20)])])), [])
  {
    IntegerStepsOverHundred();
    FloatStepsOverHundred(parse);
    BigIntStepsOverBig(convert);
    CombinePairSucceeds(D.Float(parse), D.BigInt(convert), ["100.0", "100000000000000000000"]);
  }

  /** That `forward` fails on `aaa` with the error of `integer()`, keeping both segments. */
  lemma ForwardFails(parse: string -> Maybe<real>, convert: string -> Result<Error, int>)
    ensures var segment := "aaa";
      Forward(D.Integer(), _ => Combine([D.Float(parse), D.BigInt(convert)]))([segment, "100.0"]) ==
        (Err(Error("segment " + segment + " can not be parsed as integer", None)), [segment, "100.0"])
  {
    var segs := ["aaa", "100.0"];
    D.ParseIntRejectsLetterStart("aaa");
    D.IntegerOutcome(segs);
  }

  /**
   * `choose([integer(), float()])` takes `integer`'s reading when `parseInt` finds digits, as on
   * `100.0`: digits followed by a non-digit.
   */
  lemma ChooseTakesFirstMatch(parse: string -> Maybe<real>, d: string, rest: string)
    requires IsDigits(d) && (rest == [] || !IsDigit(rest[0]))
    ensures Choose([D.Integer(), D.Float(parse)])([d + rest]) == (Ok(Num(DigitsValue(d))), [])
  {
    var segs := [d + rest];
    D.IntegerReadsLeadingDigits(segs, d, rest);
    assert segs[1..] == [];
    ChooseFirstSucceeds([D.Integer(), D.Float(parse)], segs);
  }

  /**
   * `choose([integer(), integer()])` fails with its own message, and gives the segment back, on a
   * segment that starts with a letter, as `a100.0` does.
   */
  lemma ChooseWithoutMatch(segment: string)
    requires |segment| > 0 && ('a' <= segment[0] <= 'z' || 'A' <= segment[0] <= 'Z')
    ensures Choose([D.Integer(), D.Integer()])([segment]) ==
      (Err(Error("no parser match the segments", None)), [segment])
  {
    D.IntegerFailsOnLetterStart([segment]);
    ChooseTwoFail(D.Integer(), D.Integer(), [segment]);
  }
}
