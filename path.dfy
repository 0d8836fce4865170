/**
 * The path parsers of router/path.ts. A path parser takes the list of path segments and returns
 * a result together with the segments it left unconsumed.
 */
module PathParsers {
  import opened MaybeAlgebra
  import opened ResultAlgebra
  import opened Values
  import Numerals
  import TP = TokenParsers
  import opened Routes

  type PathResult = (Result<Error, Value>, seq<string>)

  /** `PathParser<T>`. */
  type PathParser = seq<string> -> PathResult

  /** `rest` is what remains of `segs` after dropping some leading segments. */
  predicate IsSuffix(rest: seq<string>, segs: seq<string>) {
    |rest| <= |segs| && rest == segs[|segs| - |rest|..]
  }

  /** A parser whose remainder is always a suffix of its input: it only consumes. */
  ghost predicate Suffixing(p: PathParser) {
    forall segs :: IsSuffix(p(segs).1, segs)
  }

  /** A parser that hands back its input unchanged whenever it fails. */
  ghost predicate Restoring(p: PathParser) {
    forall segs :: p(segs).0.Err? ==> p(segs).1 == segs
  }

  /** `segments[0]`: the first segment, absent when there is none. */
  function Head(segs: seq<string>): (t: Token)
    ensures t.None? <==> |segs| == 0
    ensures t.Some? ==> t.value == segs[0]
  {
    if |segs| == 0 then None else Some(segs[0])
  }

  /** `segments.slice(1)`: every segment but the first; empty when there is none. */
  function Tail(segs: seq<string>): (rest: seq<string>)
    ensures IsSuffix(rest, segs)
    ensures |segs| > 0 ==> |rest| == |segs| - 1
  {
    if |segs| == 0 then [] else segs[1..]
  }

  /**
   * `segment(parser)`: the token parser applied to the first segment. It consumes that segment
   * on success and gives the input back, with a wrapping error, on failure.
   */
  function Segment(p: TP.Parser): (q: PathParser)
    ensures forall segs :: q(segs).0.Ok? <==> p(Head(segs)).Ok?
    ensures forall segs :: q(segs).0.Ok? ==> q(segs) == (p(Head(segs)), Tail(segs))
    ensures forall segs :: q(segs).0.Err? ==>
      q(segs).0.error == Error("can not parse path segment " + Show(Head(segs)), Some(p(Head(segs)).error))
  {
    segs =>
      var token := Head(segs);
      var r := p(token);
      if r.Ok? then (r, Tail(segs))
      else (Err(Error("can not parse path segment " + Show(token), Some(r.error))), segs)
  }

  /** A lifted segment parser consumes at most the first segment, and nothing when it fails. */
  lemma SegmentConsumesAtMostOne(p: TP.Parser)
    ensures Suffixing(Segment(p)) && Restoring(Segment(p))
    ensures forall segs :: |segs| - |Segment(p)(segs).1| <= 1
  {
    forall segs ensures IsSuffix(Segment(p)(segs).1, segs) {
    }
  }

  /** `literal(target)`. */
  function Literal(target: string): PathParser {
    Segment(TP.Equal(target))
  }

  /** `integer()`. */
  function Integer(): PathParser {
    Segment(TP.Integer)
  }

  /** `decimal()`. */
  function Decimal(): PathParser {
    Segment(TP.Decimal)
  }

  /** `bigint()`. */
  function BigInt(): PathParser {
    Segment(TP.BigInt)
  }

  /** `any()`. */
  function Any(): PathParser {
    Segment(TP.Any)
  }

  /** `end()`. */
  function End(): PathParser {
    Segment(TP.Empty)
  }

  /** `literal(target)` accepts exactly a list whose first segment is `target`, and consumes it. */
  lemma LiteralAccepts(target: string, segs: seq<string>)
    ensures Literal(target)(segs).0.Ok? <==> |segs| > 0 && segs[0] == target
    ensures Literal(target)(segs).0.Ok? ==> Literal(target)(segs) == (Ok(Str(target)), segs[1..])
    ensures Literal(target)(segs).0.Err? ==> Literal(target)(segs).1 == segs
  {
  }

  /** `end()` accepts exactly the empty list, with an absent value. */
  lemma EndAccepts(segs: seq<string>)
    ensures End()(segs).0.Ok? <==> segs == []
    ensures End()(segs).0.Ok? ==> End()(segs) == (Ok(Absent), [])
    ensures End()(segs).0.Err? ==> End()(segs).1 == segs
  {
  }

  /** `any()` accepts every list, the empty one included (with an absent value). */
  lemma AnyAccepts(segs: seq<string>)
    ensures Any()(segs) == (Ok(TokenValue(Head(segs))), Tail(segs))
    ensures segs == [] ==> Any()(segs) == (Ok(Absent), [])
  {
  }

  /** `integer()` on a list whose first segment is a numeral. */
  lemma IntegerSegment(segs: seq<string>)
    requires |segs| > 0
    ensures Integer()(segs).0.Ok? <==> Numerals.IsIntegerFormat(segs[0])
    ensures Integer()(segs).0.Ok? ==> Integer()(segs) == (Ok(Num(Numerals.IntegerValue(segs[0]))), segs[1..])
  {
  }

  /** The accumulator of the `reduce` in `combine`: the values so far and the segments left. */
  type Collected = (Result<Error, seq<Value>>, seq<string>)

  /** One step of that `reduce`: a failure is kept; otherwise the next parser runs on what is left. */
  function Step(acc: Collected, p: PathParser): Collected {
    if acc.0.Err? then acc
    else
      var result := p(acc.1);
      if result.0.Err? then (Err(result.0.error), result.1) else (Ok(acc.0.value + [result.0.value]), result.1)
  }

  /** The `reduce` over the parsers, from the initial `[ok([]), segments]`, left to right. */
  function Fold(ps: seq<PathParser>, segs: seq<string>): (c: Collected)
    ensures c.0.Ok? ==> |c.0.value| == |ps|
    decreases |ps|
  {
    if |ps| == 0 then (Ok([]), segs) else Step(Fold(ps[..|ps| - 1], segs), ps[|ps| - 1])
  }

  /** The final `map` of `combine`: the collected values become one tuple value. */
  function Tupled(c: Collected): (r: PathResult)
    ensures r.1 == c.1
    ensures c.0.Ok? ==> r.0 == Ok(List(c.0.value))
    ensures c.0.Err? ==> r.0 == Err(c.0.error)
  {
    (ResultAlgebra.Map((vs: seq<Value>) => List(vs), c.0), c.1)
  }

  /** `combine(parsers)`. */
  function Combine(ps: seq<PathParser>): PathParser {
    segs => Tupled(Fold(ps, segs))
  }

  /** The segments parser `i` of a `combine` receives: what the parsers before it left over. */
  function Threaded(ps: seq<PathParser>, segs: seq<string>, i: nat): seq<string>
    requires i <= |ps|
    decreases i
  {
    if i == 0 then segs else ps[i - 1](Threaded(ps, segs, i - 1)).1
  }

  /** Threading through a prefix of the parsers is threading through the whole list. */
  lemma {:induction false} ThreadedPrefix(ps: seq<PathParser>, segs: seq<string>, n: nat, i: nat)
    requires i <= n <= |ps|
    ensures Threaded(ps[..n], segs, i) == Threaded(ps, segs, i)
    decreases i
  {
    if i > 0 {
      ThreadedPrefix(ps, segs, n, i - 1);
      assert ps[..n][i - 1] == ps[i - 1];
    }
  }

  /** `vs` holds, in order, the value each parser produced on the segments threaded to it. */
  ghost predicate ThreadedValues(ps: seq<PathParser>, segs: seq<string>, vs: seq<Value>)
    requires |vs| == |ps|
  {
    forall i :: 0 <= i < |ps| ==>
      ps[i](Threaded(ps, segs, i)).0.Ok? && vs[i] == ps[i](Threaded(ps, segs, i)).0.value
  }

  /** All parsers before index `k` succeed on the segments threaded to them. */
  ghost predicate PrefixSucceeds(ps: seq<PathParser>, segs: seq<string>, k: nat)
    requires k <= |ps|
  {
    forall i :: 0 <= i < k ==> ps[i](Threaded(ps, segs, i)).0.Ok?
  }

  /**
   * The `reduce` of `combine` threads the segments: it succeeds iff every parser succeeds on
   * what its predecessor left, with one value per parser in order and the last remainder; it
   * fails with the first failing parser's error and that parser's own remainder.
   */
  lemma {:induction false} FoldThreads(ps: seq<PathParser>, segs: seq<string>)
    ensures var c := Fold(ps, segs);
      && (c.0.Ok? <==> PrefixSucceeds(ps, segs, |ps|))
      && (c.0.Ok? ==> c.1 == Threaded(ps, segs, |ps|) && ThreadedValues(ps, segs, c.0.value))
      && (c.0.Err? ==> exists k :: 0 <= k < |ps| && PrefixSucceeds(ps, segs, k) &&
                         ps[k](Threaded(ps, segs, k)).0.Err? &&
                         c == (Err(ps[k](Threaded(ps, segs, k)).0.error), ps[k](Threaded(ps, segs, k)).1))
    decreases |ps|
  {
    if |ps| > 0 {
      var n := |ps| - 1;
      var pre := ps[..n];
      FoldThreads(pre, segs);
      forall i | 0 <= i <= n
        ensures Threaded(pre, segs, i) == Threaded(ps, segs, i)
      {
        ThreadedPrefix(ps, segs, n, i);
      }
      assert forall i :: 0 <= i < n ==> pre[i] == ps[i];
      var acc := Fold(pre, segs);
      if acc.0.Err? {
        var k :| 0 <= k < n && PrefixSucceeds(pre, segs, k) && pre[k](Threaded(pre, segs, k)).0.Err? &&
                 acc == (Err(pre[k](Threaded(pre, segs, k)).0.error), pre[k](Threaded(pre, segs, k)).1);
        assert PrefixSucceeds(ps, segs, k);
      } else {
        assert PrefixSucceeds(ps, segs, n);
      }
    }
  }

  /** The success half of `FoldThreads`. */
  lemma FoldSucceeds(ps: seq<PathParser>, segs: seq<string>)
    ensures Fold(ps, segs).0.Ok? <==> PrefixSucceeds(ps, segs, |ps|)
    ensures Fold(ps, segs).0.Ok? ==>
      Fold(ps, segs).1 == Threaded(ps, segs, |ps|) && ThreadedValues(ps, segs, Fold(ps, segs).0.value)
  {
    FoldThreads(ps, segs);
  }

  /** `combine` is the `reduce` followed by the `map` into a tuple. */
  lemma CombineUnfolds(ps: seq<PathParser>, segs: seq<string>)
    ensures Combine(ps)(segs) == Tupled(Fold(ps, segs))
  {
  }

  /**
   * `combine(parsers)` succeeds iff parser i succeeds on what parser i-1 left over, for every i;
   * its value is then the tuple of their values in order and its remainder the last one's.
   */
  lemma {:induction false} CombineThreads(ps: seq<PathParser>, segs: seq<string>)
    ensures Combine(ps)(segs).0.Ok? <==> PrefixSucceeds(ps, segs, |ps|)
    ensures Combine(ps)(segs).0.Ok? ==>
      var v := Combine(ps)(segs).0.value;
      && v.List? && |v.items| == |ps| && Combine(ps)(segs).1 == Threaded(ps, segs, |ps|)
      && ThreadedValues(ps, segs, v.items)
  {
    CombineUnfolds(ps, segs);
    FoldSucceeds(ps, segs);
  }

  /** The failure half of `FoldThreads`. */
  lemma FoldFails(ps: seq<PathParser>, segs: seq<string>) returns (k: nat)
    requires Fold(ps, segs).0.Err?
    ensures k < |ps| && PrefixSucceeds(ps, segs, k)
    ensures Tupled(Fold(ps, segs)) == ps[k](Threaded(ps, segs, k))
  {
    FoldThreads(ps, segs);
    var c := Fold(ps, segs);
    k :| 0 <= k < |ps| && PrefixSucceeds(ps, segs, k) && ps[k](Threaded(ps, segs, k)).0.Err? &&
         c == (Err(ps[k](Threaded(ps, segs, k)).0.error), ps[k](Threaded(ps, segs, k)).1);
    var r := ps[k](Threaded(ps, segs, k));
    assert r == (Err(r.0.error), r.1);
  }

  /**
   * When `combine(parsers)` fails, its result is exactly the first failing parser's own error
   * and remainder: nothing restores the segments the parsers before it consumed.
   */
  lemma {:induction false} CombineFailsAtFirstFailure(ps: seq<PathParser>, segs: seq<string>)
    requires Combine(ps)(segs).0.Err?
    ensures exists k :: 0 <= k < |ps| && PrefixSucceeds(ps, segs, k) && Combine(ps)(segs) == ps[k](Threaded(ps, segs, k))
  {
    CombineUnfolds(ps, segs);
    var k := FoldFails(ps, segs);
    assert Combine(ps)(segs) == ps[k](Threaded(ps, segs, k));
  }

  /** `combine([])` succeeds with the empty tuple and leaves the input untouched. */
  lemma CombineEmpty(segs: seq<string>)
    ensures Combine([])(segs) == (Ok(List([])), segs)
  {
  }

  /** Once the first parser fails, the `reduce` carries its error and remainder to the end. */
  lemma {:induction false} FoldFirstFailure(ps: seq<PathParser>, segs: seq<string>)
    requires |ps| > 0 && ps[0](segs).0.Err?
    ensures Fold(ps, segs) == (Err(ps[0](segs).0.error), ps[0](segs).1)
    decreases |ps|
  {
    var pre := ps[..|ps| - 1];
    if |ps| == 1 {
      var start: Collected := (Ok([]), segs);
      assert Fold(pre, segs) == start;
    } else {
      assert pre[0] == ps[0];
      FoldFirstFailure(pre, segs);
    }
  }

  /**
   * When the first parser fails, `combine` returns its result as it is and runs no other parser;
   * for a parser that restores its input, such as a lifted segment parser, the remainder is then
   * the original input.
   */
  lemma CombineFirstFailure(ps: seq<PathParser>, segs: seq<string>)
    requires |ps| > 0 && ps[0](segs).0.Err?
    ensures Combine(ps)(segs) == ps[0](segs)
    ensures Restoring(ps[0]) ==> Combine(ps)(segs).1 == segs
  {
    FoldFirstFailure(ps, segs);
    CombineUnfolds(ps, segs);
  }

  /** `reduce` keeps a suffix of the input when every parser does. */
  lemma {:induction false} FoldSuffix(ps: seq<PathParser>, segs: seq<string>)
    requires forall i :: 0 <= i < |ps| ==> Suffixing(ps[i])
    ensures IsSuffix(Fold(ps, segs).1, segs)
    decreases |ps|
  {
    if |ps| > 0 {
      FoldSuffix(ps[..|ps| - 1], segs);
      var acc := Fold(ps[..|ps| - 1], segs);
      var last := ps[|ps| - 1];
      assert IsSuffix(last(acc.1).1, acc.1);
    }
  }

  /** `combine` of parsers that only consume, only consumes. */
  lemma CombineSuffixing(ps: seq<PathParser>)
    requires forall i :: 0 <= i < |ps| ==> Suffixing(ps[i])
    ensures Suffixing(Combine(ps))
  {
    forall segs ensures IsSuffix(Combine(ps)(segs).1, segs) {
      FoldSuffix(ps, segs);
    }
  }

  /** `forward(start, generator)`: a second parser built from the first one's value. */
  function Forward(start: PathParser, next: Value -> PathParser): PathParser {
    segs =>
      var first := start(segs);
      if first.0.Ok? then
        var second := next(first.0.value)(first.1);
        if second.0.Ok? then (Ok(List([first.0.value, second.0.value])), second.1) else (second.0, first.1)
      else (first.0, segs)
  }

  /**
   * `forward`: a failing start leaves the input as it was; a failing continuation leaves what
   * the start consumed consumed; on success the value pairs both values and the continuation is
   * the one built from the start's value.
   */
  lemma ForwardOutcomes(start: PathParser, next: Value -> PathParser, segs: seq<string>)
    ensures start(segs).0.Err? ==> Forward(start, next)(segs) == (start(segs).0, segs)
    ensures start(segs).0.Ok? ==>
      var (r1, s1) := start(segs);
      var (r2, s2) := next(r1.value)(s1);
      && (Forward(start, next)(segs).0.Ok? <==> r2.Ok?)
      && (r2.Ok? ==> Forward(start, next)(segs) == (Ok(List([r1.value, r2.value])), s2))
      && (r2.Err? ==> Forward(start, next)(segs) == (r2, s1))
  {
  }

  /** `forward` only consumes when its start and every continuation only consume. */
  lemma ForwardSuffixing(start: PathParser, next: Value -> PathParser)
    requires Suffixing(start)
    requires forall v :: Suffixing(next(v))
    ensures Suffixing(Forward(start, next))
  {
    forall segs ensures IsSuffix(Forward(start, next)(segs).1, segs) {
      var (r1, s1) := start(segs);
      assert IsSuffix(s1, segs);
      if r1.Ok? {
        assert IsSuffix(next(r1.value)(s1).1, s1);
      }
    }
  }

  /**
   * A `forward` whose continuation ignores the start's value is a two-parser `combine`, as long
   * as both parsers restore their input on failure; the two differ only in the remainders they
   * return on failure.
   */
  lemma ForwardConstantIsCombine(p: PathParser, q: PathParser, segs: seq<string>)
    requires Restoring(p) && Restoring(q)
    ensures Forward(p, _ => q)(segs) == Combine([p, q])(segs)
  {
    if p(segs).0.Err? {
      CombineFirstFailure([p, q], segs);
      assert p(segs).1 == segs;
    } else {
      ForwardConstantAfterSuccess(p, q, segs);
      CombinePairAfterSuccess(p, q, segs);
      assert q(p(segs).1).0.Err? ==> q(p(segs).1).1 == p(segs).1;
    }
  }

  /** A `forward` with a constant continuation whose start succeeds, spelled out. */
  lemma ForwardConstantAfterSuccess(p: PathParser, q: PathParser, segs: seq<string>)
    requires p(segs).0.Ok?
    ensures var first := p(segs);
      var second := q(first.1);
      && (second.0.Ok? ==> Forward(p, _ => q)(segs) == (Ok(List([first.0.value, second.0.value])), second.1))
      && (second.0.Err? ==> Forward(p, _ => q)(segs) == (second.0, first.1))
  {
  }

  /** A two-parser `combine` whose first parser succeeds, spelled out. */
  lemma CombinePairAfterSuccess(p: PathParser, q: PathParser, segs: seq<string>)
    requires p(segs).0.Ok?
    ensures var first := p(segs);
      var second := q(first.1);
      && (second.0.Ok? ==> Combine([p, q])(segs) == (Ok(List([first.0.value, second.0.value])), second.1))
      && (second.0.Err? ==> Combine([p, q])(segs) == (second.0, second.1))
  {
    if q(p(segs).1).0.Ok? {
      CombinePairSucceeds(p, q, segs);
    } else {
      CombinePairSecondFails(p, q, segs);
    }
  }

  /** Both parsers of a two-parser `combine` succeed: both values, and the second's remainder. */
  lemma CombinePairSucceeds(p: PathParser, q: PathParser, segs: seq<string>)
    requires p(segs).0.Ok? && q(p(segs).1).0.Ok?
    ensures Combine([p, q])(segs) == (Ok(List([p(segs).0.value, q(p(segs).1).0.value])), q(p(segs).1).1)
  {
    FoldPairAfterSuccess(p, q, segs);
    CombineUnfolds([p, q], segs);
  }

  /** The second parser of a two-parser `combine` fails: its result is returned as it is. */
  lemma CombinePairSecondFails(p: PathParser, q: PathParser, segs: seq<string>)
    requires p(segs).0.Ok? && q(p(segs).1).0.Err?
    ensures Combine([p, q])(segs) == q(p(segs).1)
  {
    FoldPairAfterSuccess(p, q, segs);
    CombineUnfolds([p, q], segs);
  }

  /** The `reduce` of a two-parser `combine` whose first parser succeeds, spelled out. */
  lemma FoldPairAfterSuccess(p: PathParser, q: PathParser, segs: seq<string>)
    requires p(segs).0.Ok?
    ensures var first := p(segs);
      var second := q(first.1);
      && (second.0.Ok? ==> Fold([p, q], segs) == (Ok([first.0.value, second.0.value]), second.1))
      && (second.0.Err? ==> Fold([p, q], segs) == (Err(second.0.error), second.1))
  {
    FoldPair(p, q, segs);
    var first := p(segs);
    var second := q(first.1);
    if second.0.Ok? {
      assert [first.0.value] + [second.0.value] == [first.0.value, second.0.value];
    }
  }

  /** The `reduce` over two parsers when the first succeeds. */
  lemma FoldPair(p: PathParser, q: PathParser, segs: seq<string>)
    requires p(segs).0.Ok?
    ensures Fold([p, q], segs) == Step((Ok([p(segs).0.value]), p(segs).1), q)
  {
    var ps := [p, q];
    var start: Collected := (Ok([]), segs);
    var none: seq<PathParser> := [];
    assert ps[..1] == [p];
    assert [p][..0] == none;
    assert Fold(none, segs) == start;
    var noValues: seq<Value> := [];
    assert noValues + [p(segs).0.value] == [p(segs).0.value];
    assert Fold([p], segs) == Step(start, p);
  }

  /** The `reduce` over one more parser is one more step. */
  lemma FoldSnoc(ps: seq<PathParser>, p: PathParser, segs: seq<string>)
    ensures Fold(ps + [p], segs) == Step(Fold(ps, segs), p)
  {
    assert (ps + [p])[..|ps|] == ps;
  }

  /** A three-parser `combine` whose parsers all succeed in turn collects their three values. */
  lemma CombineThreeSucceed(p: PathParser, q: PathParser, r: PathParser, segs: seq<string>)
    requires p(segs).0.Ok? && q(p(segs).1).0.Ok? && r(q(p(segs).1).1).0.Ok?
    ensures var first := p(segs);
      var second := q(first.1);
      var third := r(second.1);
      Combine([p, q, r])(segs) == (Ok(List([first.0.value, second.0.value, third.0.value])), third.1)
  {
    var first := p(segs);
    var second := q(first.1);
    var third := r(second.1);
    FoldPairAfterSuccess(p, q, segs);
    FoldSnoc([p, q], r, segs);
    assert [p, q] + [r] == [p, q, r];
    assert [first.0.value, second.0.value] + [third.0.value] == [first.0.value, second.0.value, third.0.value];
    CombineUnfolds([p, q, r], segs);
  }

  /** The loop of `choose`: the first alternative that succeeds on the same input decides. */
  function FirstMatch(ps: seq<PathParser>, segs: seq<string>): (r: PathResult)
    ensures r.0.Ok? <==> exists i :: 0 <= i < |ps| && ps[i](segs).0.Ok?
    ensures r.0.Ok? ==> exists i :: 0 <= i < |ps| && r == ps[i](segs) && forall j :: 0 <= j < i ==> ps[j](segs).0.Err?
    ensures r.0.Err? ==> r == (Err(Error("no parser match the segments", None)), segs)
    decreases |ps|
  {
    if |ps| == 0 then (Err(Error("no parser match the segments", None)), segs)
    else if ps[0](segs).0.Ok? then ps[0](segs)
    else
      var r := FirstMatch(ps[1..], segs);
      assert forall i :: 1 <= i < |ps| ==> ps[i] == ps[1..][i - 1];
      r
  }

  /** `choose(parsers)`. */
  function Choose(ps: seq<PathParser>): PathParser {
    segs => FirstMatch(ps, segs)
  }

  /** `choose` returns its first alternative's result verbatim when that alternative succeeds. */
  lemma ChooseFirstSucceeds(ps: seq<PathParser>, segs: seq<string>)
    requires |ps| > 0 && ps[0](segs).0.Ok?
    ensures Choose(ps)(segs) == ps[0](segs)
  {
  }

  /** `choose` fails with its own error, giving the input back, when every alternative fails. */
  lemma ChooseAllFail(ps: seq<PathParser>, segs: seq<string>)
    requires forall i :: 0 <= i < |ps| ==> ps[i](segs).0.Err?
    ensures Choose(ps)(segs) == (Err(Error("no parser match the segments", None)), segs)
  {
  }

  /** Two alternatives that both fail: `choose` reports that nothing matched and restores its input. */
  lemma ChooseTwoFail(p: PathParser, q: PathParser, segs: seq<string>)
    requires p(segs).0.Err? && q(segs).0.Err?
    ensures Choose([p, q])(segs) == (Err(Error("no parser match the segments", None)), segs)
  {
    ChooseAllFail([p, q], segs);
  }

  /** `choose` always restores its input on failure, and only consumes if its alternatives do. */
  lemma ChooseRestoring(ps: seq<PathParser>)
    ensures Restoring(Choose(ps))
    ensures (forall i :: 0 <= i < |ps| ==> Suffixing(ps[i])) ==> Suffixing(Choose(ps))
  {
    if forall i :: 0 <= i < |ps| ==> Suffixing(ps[i]) {
      forall segs ensures IsSuffix(Choose(ps)(segs).1, segs) {
        var r := FirstMatch(ps, segs);
        if r.0.Ok? {
          var i :| 0 <= i < |ps| && r == ps[i](segs) && forall j :: 0 <= j < i ==> ps[j](segs).0.Err?;
          assert IsSuffix(ps[i](segs).1, segs);
        }
      }
    }
  }

  /** `pathname.split("/")`: the pieces between the slashes; always at least one. */
  function Split(s: string): (parts: seq<string>)
    ensures |parts| >= 1
    ensures forall i :: 0 <= i < |parts| ==> '/' !in parts[i]
    ensures Join(parts) == s
    decreases |s|
  {
    if |s| == 0 then [""]
    else
      var rest := Split(s[1..]);
      if s[0] == '/' then
        var parts := [""] + rest;
        assert parts[1..] == rest;
        parts
      else
        var parts := [[s[0]] + rest[0]] + rest[1..];
        assert |rest| > 1 ==> parts[1..] == rest[1..] && Join(rest) == rest[0] + "/" + Join(rest[1..]);
        assert s == [s[0]] + s[1..];
        parts
  }

  /** The pieces joined back with "/" between them. */
  function Join(parts: seq<string>): string
    requires |parts| >= 1
    decreases |parts|
  {
    if |parts| == 1 then parts[0] else parts[0] + "/" + Join(parts[1..])
  }

  /** Splitting a slash-free prefix glued to a string glues it to the first piece. */
  lemma {:induction false} SplitPrefix(w: string, s: string)
    requires '/' !in w
    ensures Split(w + s) == [w + Split(s)[0]] + Split(s)[1..]
    decreases |w|
  {
    if |w| > 0 {
      var t, r := w + s, Split(s);
      assert t[1..] == w[1..] + s;
      assert '/' !in w[1..];
      SplitPrefix(w[1..], s);
      var rest := Split(t[1..]);
      assert rest == [w[1..] + r[0]] + r[1..];
      assert rest[0] == w[1..] + r[0] && rest[1..] == r[1..];
      assert t[0] == w[0] && t[0] != '/';
      assert Split(t) == [[t[0]] + rest[0]] + rest[1..];
      assert [w[0]] + (w[1..] + r[0]) == w + r[0];
    } else {
      assert w + s == s;
      assert w + Split(s)[0] == Split(s)[0];
      assert Split(s) == [Split(s)[0]] + Split(s)[1..];
    }
  }

  /** Splitting undoes joining, for pieces without a slash: the converse of `Split`'s round trip. */
  lemma {:induction false} SplitJoin(parts: seq<string>)
    requires |parts| >= 1
    requires forall i :: 0 <= i < |parts| ==> '/' !in parts[i]
    ensures Split(Join(parts)) == parts
    decreases |parts|
  {
    var w := parts[0];
    if |parts| == 1 {
      SplitPrefix(w, "");
      assert w + "" == w;
    } else {
      var rest := parts[1..];
      SplitJoin(rest);
      var tail := "/" + Join(rest);
      assert tail[1..] == Join(rest);
      assert Split(tail) == [""] + rest;
      assert Join(parts) == w + tail;
      SplitPrefix(w, tail);
      assert w + "" == w;
      assert parts == [w] + rest;
    }
  }

  /** The segments `path` parses: the split pathname without its first (empty) piece. */
  function PathSegments(pathname: string): (segs: seq<string>)
    ensures forall i :: 0 <= i < |segs| ==> '/' !in segs[i]
    ensures |segs| == |Split(pathname)| - 1
  {
    Split(pathname)[1..]
  }

  /** A pathname made of "/" and slash-free names joined by "/" yields exactly those names. */
  lemma PathSegmentsOfJoin(names: seq<string>)
    requires |names| >= 1
    requires forall i :: 0 <= i < |names| ==> '/' !in names[i]
    ensures PathSegments("/" + Join(names)) == names
  {
    var parts := [""] + names;
    assert parts[1..] == names;
    assert Join(parts) == "" + "/" + Join(names);
    assert "" + "/" + Join(names) == "/" + Join(names);
    SplitJoin(parts);
  }

  /** `path(parser)`: a route that parses the pathname and ignores whatever is left over. */
  function Path<C>(p: PathParser): Route<C> {
    (req: Request, ctx: C) =>
      var r := p(PathSegments(req.pathname)).0;
      if r.Ok? then Ok(r.value)
      else Err(Error("can not match request with path: " + req.pathname, Some(r.error)))
  }

  /**
   * `path`: succeeds with the parser's value iff the parser succeeds on the pathname's segments,
   * whatever it leaves unconsumed; a failure wraps the parser's error with the pathname.
   */
  lemma PathOutcome<C>(p: PathParser, req: Request, ctx: C)
    ensures var r := p(PathSegments(req.pathname)).0;
      && (Path(p)(req, ctx).Ok? <==> r.Ok?)
      && (r.Ok? ==> Path(p)(req, ctx).value == r.value)
      && (r.Err? ==> Path(p)(req, ctx).error ==
                      Error("can not match request with path: " + req.pathname, Some(r.error)))
  {
  }
}
