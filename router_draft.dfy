/**
 * The older path-parser draft of router.ts. Its leaves read `segments[0]` directly and fail on
 * an empty list; its `sequence` and `forward` are the same code as `combine` and `forward` of
 * router/path.ts and are modelled by those.
 */
module DraftRouter {
  import opened MaybeAlgebra
  import opened ResultAlgebra
  import opened Values
  import opened Numerals
  import opened PathParsers

  /** The error every leaf but `end` fails with on an empty list. */
  const EndOfSegments := Error("found the end of segments", None)

  /** `constant(literal)`. */
  function Constant(literal: string): PathParser {
    segs =>
      if |segs| == 0 then (Err(EndOfSegments), segs)
      else if segs[0] == literal then (Ok(Str(segs[0])), segs[1..])
      else (Err(Error("segment " + segs[0] + " does not match expected literal " + literal, None)), segs)
  }

  /** `any()`. */
  function Any(): PathParser {
    segs => if |segs| == 0 then (Err(EndOfSegments), segs) else (Ok(Str(segs[0])), segs[1..])
  }

  /** `end()`: on the empty list its remainder is `[].slice(1)`, which is empty. */
  function End(): PathParser {
    segs =>
      if |segs| != 0 then (Err(Error("expect the end of segments, but found " + segs[0], None)), segs)
      else (Ok(Absent), Tail(segs))
  }

  /** The characters `parseInt` skips before a numeral: JavaScript's white space and line terminators. */
  predicate IsSpace(c: char) {
    c == ' ' || c == '\t' || c == '\n' || c == '\r' || c == '\U{B}' || c == '\U{C}' ||
    c == '\U{A0}' || c == '\U{1680}' || ('\U{2000}' <= c <= '\U{200A}') || c == '\U{2028}' ||
    c == '\U{2029}' || c == '\U{202F}' || c == '\U{205F}' || c == '\U{3000}' || c == '\U{FEFF}'
  }

  /** The string without its leading white space. */
  function TrimStart(s: string): (t: string)
    ensures |t| <= |s| && t == s[|s| - |t|..]
    ensures |t| > 0 ==> !IsSpace(t[0])
    decreases |s|
  {
    if |s| > 0 && IsSpace(s[0]) then TrimStart(s[1..]) else s
  }

  /** What `TrimStart` drops is white space, every character of it. */
  lemma {:induction false} TrimStartDropsSpace(s: string)
    ensures forall i :: 0 <= i < |s| - |TrimStart(s)| ==> IsSpace(s[i])
    decreases |s|
  {
    if |s| > 0 && IsSpace(s[0]) {
      TrimStartDropsSpace(s[1..]);
      assert forall i :: 1 <= i < |s| - |TrimStart(s)| ==> s[i] == s[1..][i - 1];
    }
  }

  /** The longest prefix of digits. */
  function LeadingDigits(s: string): (d: string)
    ensures AllDigits(d) && |d| <= |s| && d == s[..|d|]
    ensures |d| < |s| ==> !IsDigit(s[|d|])
    decreases |s|
  {
    if |s| > 0 && IsDigit(s[0]) then [s[0]] + LeadingDigits(s[1..]) else ""
  }

  /**
   * `parseInt(s, 10)`: after white space and an optional sign, the longest run of digits; no
   * number (`NaN`) when there is none.
   */
  function ParseInt(s: string): Maybe<int> {
    var t := TrimStart(s);
    var digits := LeadingDigits(Unsigned(t));
    if digits == "" then None
    else if |t| > 0 && t[0] == '-' then Some(-(DigitsValue(digits) as int))
    else Some(DigitsValue(digits))
  }

  /** The string after an optional leading sign. */
  function Unsigned(t: string): (u: string)
    ensures |t| > 0 && (t[0] == '-' || t[0] == '+') ==> u == t[1..]
    ensures |t| == 0 || (t[0] != '-' && t[0] != '+') ==> u == t
  {
    if |t| > 0 && (t[0] == '-' || t[0] == '+') then t[1..] else t
  }

  /** `integer()` with its default radix 10. */
  function Integer(): PathParser {
    segs =>
      if |segs| == 0 then (Err(EndOfSegments), segs)
      else
        var num := ParseInt(segs[0]);
        if num.None? then (Err(Error("segment " + segs[0] + " can not be parsed as integer", None)), segs)
        else (Ok(Num(num.value)), segs[1..])
  }

  /** `float()`, with `parseFloat` given as `parse` (no number when it yields `NaN`). */
  function Float(parse: string -> Maybe<real>): PathParser {
    segs =>
      if |segs| == 0 then (Err(EndOfSegments), segs)
      else
        var num := parse(segs[0]);
        if num.None? then (Err(Error("segment " + segs[0] + " can not be parsed as float", None)), segs)
        else (Ok(Real(num.value)), segs[1..])
  }

  /** `bigint()`, with the `BigInt` conversion given as `convert` (an error when it throws). */
  function BigInt(convert: string -> Result<Error, int>): PathParser {
    segs =>
      if |segs| == 0 then (Err(EndOfSegments), segs)
      else
        var num := convert(segs[0]);
        if num.Err? then (Err(Error("segment " + segs[0] + " can not be parsed as bigint", Some(num.error))), segs)
        else (Ok(Big(num.value)), segs[1..])
  }

  /** A parser that consumes exactly one segment when it succeeds and none when it fails. */
  ghost predicate StepsOne(p: PathParser) {
    forall segs :: (p(segs).0.Ok? ==> |segs| > 0 && p(segs).1 == segs[1..]) && (p(segs).0.Err? ==> p(segs).1 == segs)
  }

  /** Every parser of the list steps one segment. */
  ghost predicate AllStepOne(ps: seq<PathParser>) {
    forall j :: 0 <= j < |ps| ==> StepsOne(ps[j])
  }

  /** What `StepsOne` says about one list. */
  lemma StepsOneAt(p: PathParser, segs: seq<string>)
    requires StepsOne(p)
    ensures p(segs).0.Ok? ==> |segs| > 0 && p(segs).1 == segs[1..]
    ensures p(segs).0.Err? ==> p(segs).1 == segs
  {
  }

  /** Every leaf but `end` consumes exactly one segment on success and none on failure. */
  lemma LeavesStepOne(literal: string, parse: string -> Maybe<real>, convert: string -> Result<Error, int>)
    ensures StepsOne(Constant(literal)) && StepsOne(Any()) && StepsOne(Integer())
    ensures StepsOne(Float(parse)) && StepsOne(BigInt(convert))
  {
    ConstantStepsOne(literal);
    AnyStepsOne();
    IntegerStepsOne();
    FloatStepsOne(parse);
    BigIntStepsOne(convert);
  }

  /** `constant(literal)` steps over exactly one segment. */
  lemma ConstantStepsOne(literal: string)
    ensures StepsOne(Constant(literal))
  {
    forall segs
      ensures (Constant(literal)(segs).0.Ok? ==> |segs| > 0 && Constant(literal)(segs).1 == segs[1..])
      ensures (Constant(literal)(segs).0.Err? ==> Constant(literal)(segs).1 == segs)
    {
    }
  }

  /** `any()` steps over exactly one segment. */
  lemma AnyStepsOne()
    ensures StepsOne(Any())
  {
    forall segs
      ensures (Any()(segs).0.Ok? ==> |segs| > 0 && Any()(segs).1 == segs[1..])
      ensures (Any()(segs).0.Err? ==> Any()(segs).1 == segs)
    {
    }
  }

  /** `integer()` steps over exactly one segment. */
  lemma IntegerStepsOne()
    ensures StepsOne(Integer())
  {
    forall segs
      ensures (Integer()(segs).0.Ok? ==> |segs| > 0 && Integer()(segs).1 == segs[1..])
      ensures (Integer()(segs).0.Err? ==> Integer()(segs).1 == segs)
    {
      if |segs| > 0 {
        IntegerOutcome(segs);
      }
    }
  }

  /** `float()` steps over exactly one segment, whatever `parse` does. */
  lemma FloatStepsOne(parse: string -> Maybe<real>)
    ensures StepsOne(Float(parse))
  {
    forall segs
      ensures (Float(parse)(segs).0.Ok? ==> |segs| > 0 && Float(parse)(segs).1 == segs[1..])
      ensures (Float(parse)(segs).0.Err? ==> Float(parse)(segs).1 == segs)
    {
    }
  }

  /** `bigint()` steps over exactly one segment, whatever `convert` does. */
  lemma BigIntStepsOne(convert: string -> Result<Error, int>)
    ensures StepsOne(BigInt(convert))
  {
    forall segs
      ensures (BigInt(convert)(segs).0.Ok? ==> |segs| > 0 && BigInt(convert)(segs).1 == segs[1..])
      ensures (BigInt(convert)(segs).0.Err? ==> BigInt(convert)(segs).1 == segs)
    {
    }
  }

  /** Every leaf but `end` fails on the empty list with "found the end of segments", consuming nothing. */
  lemma LeavesFailAtEnd(literal: string, parse: string -> Maybe<real>, convert: string -> Result<Error, int>)
    ensures Constant(literal)([]) == (Err(EndOfSegments), [])
    ensures Any()([]) == (Err(EndOfSegments), [])
    ensures Integer()([]) == (Err(EndOfSegments), [])
    ensures Float(parse)([]) == (Err(EndOfSegments), [])
    ensures BigInt(convert)([]) == (Err(EndOfSegments), [])
  {
  }

  /**
   * `constant(literal)` on a non-empty list succeeds, with the first segment, iff that segment
   * is the literal; otherwise it names both.
   */
  lemma ConstantAccepts(literal: string, segs: seq<string>)
    requires |segs| > 0
    ensures Constant(literal)(segs).0.Ok? <==> segs[0] == literal
    ensures segs[0] == literal ==> Constant(literal)(segs) == (Ok(Str(literal)), segs[1..])
    ensures segs[0] != literal ==>
      Constant(literal)(segs) == (Err(Error("segment " + segs[0] + " does not match expected literal " + literal, None)), segs)
  {
  }

  /** `end()` succeeds, with an absent value and nothing left, iff the list is empty. */
  lemma EndAccepts(segs: seq<string>)
    ensures End()(segs).0.Ok? <==> segs == []
    ensures segs == [] ==> End()(segs) == (Ok(Absent), [])
    ensures segs != [] ==> End()(segs) == (Err(Error("expect the end of segments, but found " + segs[0], None)), segs)
  {
  }

  /** `any()` on a non-empty list succeeds with the first segment and consumes exactly it. */
  lemma AnyTakesFirst(segs: seq<string>)
    requires |segs| > 0
    ensures Any()(segs) == (Ok(Str(segs[0])), segs[1..])
  {
  }

  /**
   * `integer()` on a non-empty list succeeds iff `parseInt` finds a number in the first segment,
   * consuming that segment; otherwise it names the segment and leaves the list as it was.
   */
  lemma IntegerOutcome(segs: seq<string>)
    requires |segs| > 0
    ensures Integer()(segs).0.Ok? <==> ParseInt(segs[0]).Some?
    ensures ParseInt(segs[0]).Some? ==> Integer()(segs) == (Ok(Num(ParseInt(segs[0]).value)), segs[1..])
    ensures ParseInt(segs[0]).None? ==>
      Integer()(segs) == (Err(Error("segment " + segs[0] + " can not be parsed as integer", None)), segs)
  {
  }

  /** `integer()` reads a segment the integer gate of base/parser.ts accepts as the integer it denotes. */
  lemma IntegerReadsNumeral(segs: seq<string>)
    requires |segs| > 0 && IsIntegerFormat(segs[0])
    ensures Integer()(segs) == (Ok(Num(IntegerValue(segs[0]))), segs[1..])
  {
    ParseIntReadsNumeral(segs[0]);
  }

  /** `integer()` reads the leading digits of a segment and ignores what follows them (`100.0` is 100). */
  lemma IntegerReadsLeadingDigits(segs: seq<string>, d: string, rest: string)
    requires |segs| > 0 && segs[0] == d + rest && IsDigits(d) && (rest == [] || !IsDigit(rest[0]))
    ensures Integer()(segs) == (Ok(Num(DigitsValue(d))), segs[1..])
  {
    ParseIntStopsAtNonDigit(d, rest);
  }

  /** `integer()` rejects a segment that starts with a letter and leaves the list as it was. */
  lemma IntegerRejectsLetterStart(segs: seq<string>)
    requires |segs| > 0 && |segs[0]| > 0 && ('a' <= segs[0][0] <= 'z' || 'A' <= segs[0][0] <= 'Z')
    ensures Integer()(segs) == (Err(Error("segment " + segs[0] + " can not be parsed as integer", None)), segs)
  {
    ParseIntRejectsLetterStart(segs[0]);
  }

  /** `integer()` fails on a segment that starts with a letter. */
  lemma IntegerFailsOnLetterStart(segs: seq<string>)
    requires |segs| > 0 && |segs[0]| > 0 && ('a' <= segs[0][0] <= 'z' || 'A' <= segs[0][0] <= 'Z')
    ensures Integer()(segs).0.Err?
  {
    IntegerRejectsLetterStart(segs);
  }

  /** `float()` likewise, with `parseFloat` as `parse`. */
  lemma FloatOutcome(parse: string -> Maybe<real>, segs: seq<string>)
    requires |segs| > 0
    ensures Float(parse)(segs).0.Ok? <==> parse(segs[0]).Some?
    ensures parse(segs[0]).Some? ==> Float(parse)(segs) == (Ok(Real(parse(segs[0]).value)), segs[1..])
    ensures parse(segs[0]).None? ==>
      Float(parse)(segs) == (Err(Error("segment " + segs[0] + " can not be parsed as float", None)), segs)
  {
  }

  /** `bigint()` likewise, with `BigInt` as `convert`; its failure keeps the thrown error as inner. */
  lemma BigIntOutcome(convert: string -> Result<Error, int>, segs: seq<string>)
    requires |segs| > 0
    ensures BigInt(convert)(segs).0.Ok? <==> convert(segs[0]).Ok?
    ensures convert(segs[0]).Ok? ==> BigInt(convert)(segs) == (Ok(Big(convert(segs[0]).value)), segs[1..])
    ensures convert(segs[0]).Err? ==>
      BigInt(convert)(segs) ==
        (Err(Error("segment " + segs[0] + " can not be parsed as bigint", Some(convert(segs[0]).error))), segs)
  {
  }

  /**
   * `parseInt` yields no number (`NaN`) exactly when no digit follows the white space and the
   * optional sign; otherwise the number is the digits' value, negated after a minus sign.
   */
  lemma ParseIntOutcome(s: string)
    ensures var t := TrimStart(s);
      var u := Unsigned(t);
      && (ParseInt(s).None? <==> LeadingDigits(u) == "")
      && (ParseInt(s).Some? && |t| > 0 && t[0] == '-' ==> ParseInt(s).value == -(DigitsValue(LeadingDigits(u)) as int))
      && (ParseInt(s).Some? && (|t| == 0 || t[0] != '-') ==> ParseInt(s).value == DigitsValue(LeadingDigits(u)))
  {
  }

  /** `parseInt` reads a numeral the integer gate accepts as the integer it denotes. */
  lemma ParseIntReadsNumeral(s: string)
    requires IsIntegerFormat(s)
    ensures ParseInt(s) == Some(IntegerValue(s))
  {
    assert !IsSpace(s[0]);
    assert TrimStart(s) == s;
    if s[0] == '-' {
      var d := s[1..];
      assert IsDigits(d);
      assert d + "" == d;
      LeadingDigitsOfDigits(d, "");
      assert LeadingDigits(d) == d;
    } else {
      assert s + "" == s;
      LeadingDigitsOfDigits(s, "");
      assert LeadingDigits(s) == s;
    }
  }

  /** The leading digits of digits followed by a non-digit are those digits. */
  lemma {:induction false} LeadingDigitsOfDigits(d: string, rest: string)
    requires AllDigits(d)
    requires rest == [] || !IsDigit(rest[0])
    ensures LeadingDigits(d + rest) == d
    decreases |d|
  {
    if |d| > 0 {
      assert (d + rest)[1..] == d[1..] + rest;
      LeadingDigitsOfDigits(d[1..], rest);
      assert [d[0]] + d[1..] == d;
    } else {
      assert d + rest == rest;
    }
  }

  /** `parseInt` stops at the first non-digit: `100.0` reads as 100. */
  lemma ParseIntStopsAtNonDigit(d: string, rest: string)
    requires IsDigits(d)
    requires rest == [] || !IsDigit(rest[0])
    ensures ParseInt(d + rest) == Some(DigitsValue(d))
  {
    assert (d + rest)[0] == d[0];
    ParseIntOfDigitStart(d + rest);
    LeadingDigitsOfDigits(d, rest);
  }

  /** On a string that starts with a digit, `parseInt` reads its leading digits. */
  lemma ParseIntOfDigitStart(s: string)
    requires |s| > 0 && IsDigit(s[0])
    ensures ParseInt(s) == Some(DigitsValue(LeadingDigits(s)))
  {
    assert !IsSpace(s[0]);
    TrimStartKeeps(s);
    var t := TrimStart(s);
    assert t[0] == s[0] && t[0] != '-' && t[0] != '+';
    assert Unsigned(t) == t;
    var digits := LeadingDigits(t);
    assert digits == [s[0]] + LeadingDigits(s[1..]);
    assert ParseInt(s) == Some(DigitsValue(digits));
  }

  /** A string that does not start with white space is its own `TrimStart`. */
  lemma TrimStartKeeps(s: string)
    requires |s| > 0 && !IsSpace(s[0])
    ensures TrimStart(s) == s
  {
  }

  /** `parseInt` finds no number in a string that starts with a letter (`hello`, `aaa`, `a100.0`). */
  lemma ParseIntRejectsLetterStart(s: string)
    requires |s| > 0 && ('a' <= s[0] <= 'z' || 'A' <= s[0] <= 'Z')
    ensures ParseInt(s) == None
  {
    assert !IsSpace(s[0]) && s[0] != '-' && s[0] != '+';
    assert TrimStart(s) == s;
    assert !IsDigit(s[0]);
    assert LeadingDigits(s) == "";
  }

  /**
   * The `reduce` over parsers that each consume one segment: parser `i` receives `segs[i..]`, so
   * a success leaves `segs[|ps|..]` and a failure at parser `k` leaves `segs[k..]`.
   */
  lemma {:induction false} FoldSteps(ps: seq<PathParser>, segs: seq<string>)
    requires AllStepOne(ps)
    ensures Fold(ps, segs).0.Ok? ==> |ps| <= |segs| && Fold(ps, segs).1 == segs[|ps|..]
    ensures Fold(ps, segs).0.Err? ==> exists k :: (0 <= k < |ps| && k <= |segs| &&
      ps[k](segs[k..]).0.Err? && Fold(ps, segs) == (Err(ps[k](segs[k..]).0.error), segs[k..]))
    decreases |ps|
  {
    if |ps| > 0 {
      var n := |ps| - 1;
      var pre := ps[..n];
      assert forall j :: 0 <= j < n ==> pre[j] == ps[j];
      assert AllStepOne(pre);
      FoldSteps(pre, segs);
      var acc := Fold(pre, segs);
      if acc.0.Ok? {
        assert acc.1 == segs[n..];
        assert Fold(ps, segs) == Step(acc, ps[n]);
        StepsOneAt(ps[n], segs[n..]);
        var r := ps[n](segs[n..]);
        if r.0.Ok? {
          assert Fold(ps, segs).1 == r.1 == segs[n..][1..];
          assert segs[n..][1..] == segs[n + 1..];
        } else {
          assert r.1 == segs[n..];
          assert Fold(ps, segs) == (Err(r.0.error), r.1);
        }
      } else {
        var k :| 0 <= k < n && k <= |segs| &&
                 pre[k](segs[k..]).0.Err? && acc == (Err(pre[k](segs[k..]).0.error), segs[k..]);
        assert ps[k] == pre[k];
      }
    }
  }

  /**
   * A `sequence` (the same `reduce` as `combine`) of parsers that each consume one segment
   * consumes one segment per parser when it succeeds.
   */
  lemma {:induction false} SequenceStepsOnSuccess(ps: seq<PathParser>, segs: seq<string>)
    requires AllStepOne(ps)
    requires Combine(ps)(segs).0.Ok?
    ensures |ps| <= |segs| && Combine(ps)(segs).1 == segs[|ps|..]
  {
    CombineUnfolds(ps, segs);
    FoldSteps(ps, segs);
  }

  /** The parser at which such a `reduce` stopped, named. */
  lemma FailingStep(ps: seq<PathParser>, segs: seq<string>) returns (k: nat)
    requires AllStepOne(ps)
    requires Fold(ps, segs).0.Err?
    ensures k < |ps| && k <= |segs| && ps[k](segs[k..]).0.Err?
    ensures Fold(ps, segs) == (Err(ps[k](segs[k..]).0.error), segs[k..])
  {
    FoldSteps(ps, segs);
    k :| 0 <= k < |ps| && k <= |segs| &&
         ps[k](segs[k..]).0.Err? && Fold(ps, segs) == (Err(ps[k](segs[k..]).0.error), segs[k..]);
  }

  /**
   * When such a `sequence` fails at parser `k`, it returns that parser's own result on
   * `segs[k..]`: the segments before the failure stay consumed.
   */
  lemma {:induction false} SequenceStepsOnFailure(ps: seq<PathParser>, segs: seq<string>)
    requires AllStepOne(ps)
    requires Combine(ps)(segs).0.Err?
    ensures exists k :: 0 <= k < |ps| && k <= |segs| && Combine(ps)(segs) == ps[k](segs[k..])
  {
    CombineUnfolds(ps, segs);
    var k := FailingStep(ps, segs);
    var r := ps[k](segs[k..]);
    StepsOneAt(ps[k], segs[k..]);
    assert r == (Err(r.0.error), segs[k..]);
    assert Combine(ps)(segs) == r;
  }
}
