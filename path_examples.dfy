/**
 * Worked cases of the path parsers of router/path.ts, including the remainder that a failing
 * `combine` or `forward` hands back.
 */
module PathExamples {
  import opened ResultAlgebra
  import opened Values
  import opened PathParsers

  /** `literal("users")` on `["users", "42"]` yields "users" and leaves `["42"]`. */
  lemma LiteralUsers()
    ensures Literal("users")(["users", "42"]) == (Ok(Str("users")), ["42"])
  {
    var segs := ["users", "42"];
    LiteralAccepts("users", segs);
    assert segs[1..] == ["42"];
  }

  /**
   * When the second of two literals fails, `combine` returns the second literal's remainder:
   * the segment the first literal consumed is not given back.
   */
  lemma CombineKeepsEarlierConsumption(a: string, b: string, rest: seq<string>)
    requires rest == [] || rest[0] != b
    ensures Combine([Literal(a), Literal(b)])([a] + rest).0.Err?
    ensures Combine([Literal(a), Literal(b)])([a] + rest).1 == rest
  {
    var segs := [a] + rest;
    LiteralAccepts(a, segs);
    assert segs[1..] == rest;
    LiteralAccepts(b, rest);
    CombinePairSecondFails(Literal(a), Literal(b), segs);
  }

  /** Likewise a `forward` whose continuation fails keeps what its start consumed. */
  lemma ForwardKeepsStartConsumption(a: string, b: string, rest: seq<string>)
    requires rest == [] || rest[0] != b
    ensures Forward(Literal(a), _ => Literal(b))([a] + rest).0.Err?
    ensures Forward(Literal(a), _ => Literal(b))([a] + rest).1 == rest
  {
    var segs := [a] + rest;
    LiteralAccepts(a, segs);
    assert segs[1..] == rest;
    LiteralAccepts(b, rest);
    ForwardConstantAfterSuccess(Literal(a), Literal(b), segs);
  }

  /** `combine` depends on the order of its parsers: two different literals match in order... */
  lemma CombineInOrder(a: string, b: string)
    ensures Combine([Literal(a), Literal(b)])([a, b]) == (Ok(List([Str(a), Str(b)])), [])
  {
    var segs := [a, b];
    LiteralAccepts(a, segs);
    assert segs[1..] == [b];
    LiteralAccepts(b, [b]);
    assert [b][1..] == [];
    CombinePairSucceeds(Literal(a), Literal(b), segs);
  }

  /** ...and swapped they fail at once, giving the input back. */
  lemma CombineOrderMatters(a: string, b: string)
    requires a != b
    ensures Combine([Literal(b), Literal(a)])([a, b]).0.Err?
    ensures Combine([Literal(b), Literal(a)])([a, b]).1 == [a, b]
  {
    var segs := [a, b];
    LiteralAccepts(b, segs);
    CombineFirstFailure([Literal(b), Literal(a)], segs);
  }

  /** The pathname "/api/v1/users/100" gives the segments "api", "v1", "users", "100". */
  lemma ApiPathSegments()
    ensures PathSegments("/api/v1/users/100") == ["api", "v1", "users", "100"]
  {
    var names := ["api", "v1", "users", "100"];
    assert Join(names[3..]) == "100";
    assert Join(names[2..]) == "users/100";
    assert Join(names[1..]) == "v1/users/100";
    assert Join(names) == "api/v1/users/100";
    PathSegmentsOfJoin(names);
  }
}
